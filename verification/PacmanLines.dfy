/** What one line of `pacman.conf` says. */
module PacmanLines {
  import opened Common
  import opened Text

  datatype Key = SigLevel | Server | Include

  datatype Kind = Header(name: string) | Entry(key: Key, value: string) | Blank | Other

  /** A line of the file with what it says. */
  datatype Line = Line(text: string, kind: Kind)

  function KeyName(k: Key): string {
    match k
    case SigLevel => "SigLevel"
    case Server => "Server"
    case Include => "Include"
  }

  /** The value of `s` if it is a directive `k = value`. */
  function Directive(s: string, k: Key): Option<string> {
    if !(KeyName(k) <= s) then None
    else
      var rest := StripLeft(s[|KeyName(k)|..]);
      if rest != "" && rest[0] == '=' then Some(Strip(rest[1..])) else None
  }

  predicate NoBrackets(s: string) {
    '[' !in s && ']' !in s
  }

  /** What pacman and dasik take a line for, once its outer whitespace is gone. */
  function Classify(line: string): Kind {
    var s := Strip(line);
    if s == "" then Blank
    else if |s| > 2 && s[0] == '[' && s[|s| - 1] == ']' && NoBrackets(s[1..|s| - 1]) then
      Header(s[1..|s| - 1])
    else if Directive(s, SigLevel).Some? then Entry(SigLevel, Directive(s, SigLevel).value)
    else if Directive(s, Server).Some? then Entry(Server, Directive(s, Server).value)
    else if Directive(s, Include).Some? then Entry(Include, Directive(s, Include).value)
    else Other
  }

  function ReadLines(texts: seq<string>): (lines: seq<Line>)
    ensures |lines| == |texts|
    ensures forall i :: 0 <= i < |lines| ==> lines[i] == Line(texts[i], Classify(texts[i]))
  {
    seq(|texts|, i requires 0 <= i < |texts| => Line(texts[i], Classify(texts[i])))
  }

  function Texts(lines: seq<Line>): (texts: seq<string>)
    ensures |texts| == |lines|
    ensures forall i :: 0 <= i < |texts| ==> texts[i] == lines[i].text
  {
    seq(|lines|, i requires 0 <= i < |lines| => lines[i].text)
  }
}
