/** The drop-in that lists the registries an unqualified image name is looked up in: its printer and
    its parser. */
module RegistriesFile {
  import opened Common
  import opened Text

  const KEY := "unqualified-search-registries"

  predicate IsCommentLine(l: string) {
    l != "" && l[0] == '#' && '\n' !in l
  }

  /** The lines written above the list: comments, whatever they say. */
  type Comments = header: seq<string> | forall l :: l in header ==> IsCommentLine(l)

  // ---------------------------------------------------------------- the parser

  function SkipBlanks(s: string): string {
    if s != "" && (s[0] == ' ' || s[0] == '\t') then SkipBlanks(s[1..]) else s
  }

  /** The length of the leading run of characters other than `c`. */
  function RunLen(s: string, c: char): (n: nat)
    ensures n <= |s| && c !in s[..n] && (n < |s| ==> s[n] == c)
  {
    if s == "" || s[0] == c then 0
    else
      var n := RunLen(s[1..], c);
      assert s[..n + 1] == [s[0]] + s[1..][..n];
      n + 1
  }

  function After(s: string, prefix: string): Option<string> {
    if prefix <= s then Some(s[|prefix|..]) else None
  }

  /** `_ASSIGNMENT` at the start of a line: the text between the brackets. */
  function ListHere(s: string): Option<string> {
    match After(SkipBlanks(s), KEY)
    case None => None
    case Some(rest) =>
      match After(SkipBlanks(rest), "=")
      case None => None
      case Some(value) =>
        match After(SkipBlanks(value), "[")
        case None => None
        case Some(list) =>
          var n := RunLen(list, ']');
          if n < |list| then Some(list[..n]) else None
  }

  /** The first assignment in the text. */
  function FindList(text: string): Option<string>
    decreases |text|
  {
    if ListHere(text).Some? then ListHere(text)
    else
      var n := RunLen(text, '\n');
      if n < |text| then FindList(text[n + 1..]) else None
  }

  /** `_ENTRY.findall`: quoted runs of at least one character. */
  function EntriesIn(s: string): (r: seq<string>)
    decreases |s|
  {
    if s == "" then []
    else if s[0] != '"' then EntriesIn(s[1..])
    else
      var n := RunLen(s[1..], '"');
      if 0 < n < |s| - 1 then [s[1..n + 1]] + EntriesIn(s[n + 2..])
      else EntriesIn(s[1..])
  }

  /** `actual`, on the text of the file or on its absence. */
  function Listed(file: Option<string>): seq<string> {
    match file
    case None => []
    case Some(text) =>
      match FindList(text)
      case None => []
      case Some(list) => EntriesIn(list)
  }

  // ---------------------------------------------------------------- the printer

  function Quoted(entries: seq<string>): seq<string> {
    if entries == [] then [] else ["\"" + entries[0] + "\""] + Quoted(entries[1..])
  }

  function Assignment(entries: seq<string>): string {
    KEY + " = [" + Join(Quoted(entries), ", ") + "]\n"
  }

  /** `_write`: no entries, no file. */
  function Written(header: Comments, entries: seq<string>): Option<string> {
    if entries == [] then None else Some(Unlines(header) + Assignment(entries))
  }

  // ---------------------------------------------------------------- the round trip

  /** An entry the file can carry. */
  predicate Clean(e: string) {
    e != "" && '"' !in e && ']' !in e
  }

  lemma {:induction false} RunLenAt(e: string, c: char, rest: string)
    requires c !in e && (rest == "" || rest[0] == c)
    ensures RunLen(e + rest, c) == |e|
  {
    if e == "" {
      assert e + rest == rest;
    } else {
      assert (e + rest)[1..] == e[1..] + rest;
      RunLenAt(e[1..], c, rest);
    }
  }

  lemma EntriesCons(e: string, tail: string)
    requires e != "" && '"' !in e
    ensures EntriesIn("\"" + e + "\"" + tail) == [e] + EntriesIn(tail)
  {
    var s := "\"" + e + "\"" + tail;
    assert s[1..] == e + ("\"" + tail);
    RunLenAt(e, '"', "\"" + tail);
    assert s[1..|e| + 1] == e && s[|e| + 2..] == tail;
  }

  lemma EntriesAfterComma(tail: string)
    ensures EntriesIn(", " + tail) == EntriesIn(tail)
  {
    var t := ", " + tail;
    assert t[1..] == " " + tail && t[1..][1..] == tail;
    assert EntriesIn(t) == EntriesIn(t[1..]) == EntriesIn(tail);
  }

  lemma EntriesCommaCons(e: string, tail: string)
    requires e != "" && '"' !in e
    ensures EntriesIn("\"" + e + "\"" + ", " + tail) == [e] + EntriesIn(tail)
  {
    EntriesCons(e, ", " + tail);
    EntriesAfterComma(tail);
    assert "\"" + e + "\"" + ", " + tail == "\"" + e + "\"" + (", " + tail);
  }

  lemma JoinQuoted(entries: seq<string>)
    requires entries != []
    ensures Join(Quoted(entries), ", ") ==
            if |entries| == 1 then "\"" + entries[0] + "\""
            else "\"" + entries[0] + "\"" + ", " + Join(Quoted(entries[1..]), ", ")
  {
    assert Quoted(entries)[1..] == Quoted(entries[1..]);
    assert |Quoted(entries)| > 1 <==> |entries| > 1;
  }

  lemma {:induction false} EntriesOfJoin(entries: seq<string>)
    requires forall e :: e in entries ==> Clean(e)
    ensures EntriesIn(Join(Quoted(entries), ", ")) == entries
    ensures ']' !in Join(Quoted(entries), ", ")
  {
    if entries != [] {
      var e, rest := entries[0], entries[1..];
      assert e in entries && forall x :: x in rest ==> x in entries;
      assert Clean(e) && entries == [e] + rest;
      EntriesOfJoin(rest);
      JoinQuoted(entries);
      if rest == [] {
        EntriesCons(e, "");
        assert "\"" + e + "\"" + "" == "\"" + e + "\"";
      } else {
        EntriesCommaCons(e, Join(Quoted(rest), ", "));
      }
    }
  }

  /** One blank, then the mark. */
  lemma MarkAfterBlank(s: string, mark: char, rest: string)
    requires s == " " + [mark] + rest && mark != ' ' && mark != '\t'
    ensures After(SkipBlanks(s), [mark]) == Some(rest)
  {
    assert s[1..] == [mark] + rest;
    assert SkipBlanks(s) == s[1..];
    assert s[1..][1..] == rest;
  }

  lemma KeyFirst(s: string, rest: string)
    requires s == KEY + rest
    ensures After(SkipBlanks(s), KEY) == Some(rest)
  {
    assert KEY[0] == 'u' && s[0] == 'u';
    assert s[|KEY|..] == rest;
  }

  lemma ListHereOfAssignment(list: string)
    requires ']' !in list
    ensures ListHere(KEY + " = [" + list + "]\n") == Some(list)
  {
    var s := KEY + " = [" + list + "]\n";
    var tail := list + "]\n";
    var value := " " + "[" + tail;
    var rest := " " + "=" + value;
    assert s == KEY + rest;
    KeyFirst(s, rest);
    MarkAfterBlank(rest, '=', value);
    MarkAfterBlank(value, '[', tail);
    assert tail == list + ("]\n");
    RunLenAt(list, ']', "]\n");
    assert tail[..|list|] == list;
  }

  lemma SkipComment(line: string, rest: string)
    requires IsCommentLine(line)
    ensures FindList(line + "\n" + rest) == FindList(rest)
  {
    var s := line + "\n" + rest;
    assert s[0] == '#' && SkipBlanks(s) == s;
    assert KEY[0] == 'u' && !(KEY <= s);
    assert s == line + ("\n" + rest);
    RunLenAt(line, '\n', "\n" + rest);
    assert s[|line| + 1..] == rest;
  }

  lemma UnlinesHead(lines: seq<string>, rest: string)
    requires lines != []
    ensures Unlines(lines) + rest == lines[0] + "\n" + (Unlines(lines[1..]) + rest)
  {
  }

  lemma {:induction false} SkipComments(lines: seq<string>, rest: string)
    requires forall l :: l in lines ==> IsCommentLine(l)
    ensures FindList(Unlines(lines) + rest) == FindList(rest)
  {
    if lines == [] {
      assert Unlines(lines) + rest == rest;
    } else {
      assert lines[0] in lines && forall l :: l in lines[1..] ==> l in lines;
      SkipComments(lines[1..], rest);
      SkipComment(lines[0], Unlines(lines[1..]) + rest);
      UnlinesHead(lines, rest);
    }
  }

  /** The parser only ever yields entries the file can carry. */
  lemma ListedClean(file: Option<string>)
    ensures forall e :: e in Listed(file) ==> Clean(e)
  {
    if file.Some? && FindList(file.value).Some? {
      FoundListOpen(file.value);
      EntriesClean(FindList(file.value).value);
    }
  }

  lemma {:induction false} FoundListOpen(text: string)
    ensures FindList(text).Some? ==> ']' !in FindList(text).value
    decreases |text|
  {
    if ListHere(text).None? && RunLen(text, '\n') < |text| {
      FoundListOpen(text[RunLen(text, '\n') + 1..]);
    }
  }

  lemma {:induction false} EntriesClean(s: string)
    requires ']' !in s
    ensures forall e :: e in EntriesIn(s) ==> Clean(e)
    decreases |s|
  {
    if s != "" {
      EntriesClean(s[1..]);
      if s[0] == '"' {
        var n := RunLen(s[1..], '"');
        if 0 < n < |s| - 1 {
          EntriesClean(s[n + 2..]);
          assert s[1..n + 1] == s[1..][..n];
        }
      }
    }
  }

  /** What is written reads back exactly when every entry is nonempty and holds neither `"` nor
      `]`; the empty list is the absence of the file. */
  lemma WrittenReadsBackIff(header: Comments, entries: seq<string>)
    ensures Listed(Written(header, entries)) == entries <==> forall e :: e in entries ==> Clean(e)
  {
    ListedClean(Written(header, entries));
    if entries != [] && forall e :: e in entries ==> Clean(e) {
      var list := Join(Quoted(entries), ", ");
      EntriesOfJoin(entries);
      ListHereOfAssignment(list);
      SkipComments(header, Assignment(entries));
    }
  }
}
