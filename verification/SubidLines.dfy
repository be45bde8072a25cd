/** The lines of `/etc/subuid` and `/etc/subgid`: `<user>:<first id>:<count>`. */
module SubidLines {
  import opened Common
  import opened Text

  datatype Range = Range(start: int, count: int)

  const FIRST_SUBID := 100000
  const SUBID_COUNT := 65536

  // ---------------------------------------------------------------- lines

  /** The user a line belongs to. */
  function OwnerOf(line: string): Option<string> {
    if ':' in line then Some(Split(line, ':')[0]) else None
  }

  /** The ids a line reserves, when it has three fields and the last two are numbers. */
  function RangeOf(line: string): Option<Range> {
    var parts := Split(line, ':');
    if |parts| < 3 || ParseInt(parts[1]).None? || ParseInt(parts[2]).None? then None
    else Some(Range(ParseInt(parts[1]).value, ParseInt(parts[2]).value))
  }

  function NewLine(user: string, start: nat): string {
    Join([user, Decimal(start), Decimal(SUBID_COUNT)], ":")
  }

  predicate IsBlank(line: string) {
    Strip(line) == ""
  }

  lemma NoColonInDecimal(n: nat)
    ensures ':' !in Decimal(n)
  {
  }

  lemma NewLineReadsBack(user: string, start: nat)
    requires ':' !in user
    ensures OwnerOf(NewLine(user, start)) == Some(user)
    ensures RangeOf(NewLine(user, start)) == Some(Range(start, SUBID_COUNT))
    ensures !IsBlank(NewLine(user, start))
  {
    var parts := [user, Decimal(start), Decimal(SUBID_COUNT)];
    var line := NewLine(user, start);
    NoColonInDecimal(start);
    NoColonInDecimal(SUBID_COUNT);
    SplitOfJoin(parts, ':');
    ParseIntOfDecimal(start);
    ParseIntOfDecimal(SUBID_COUNT);
    ColonNotBlank(line);
  }

  lemma {:induction false} ColonNotBlank(line: string)
    requires Split(line, ':') != [line]
    ensures ':' in line && !IsBlank(line)
  {
    KeptByStrip(line, ':');
  }

  lemma KeptByStrip(s: string, c: char)
    requires c in s && !IsSpace(c)
    ensures c in Strip(s)
  {
    KeptLeft(s, c);
    KeptRight(StripLeft(s), c);
  }

  lemma {:induction false} KeptLeft(s: string, c: char)
    requires c in s && !IsSpace(c)
    ensures c in StripLeft(s)
  {
    if IsSpace(s[0]) {
      KeptLeft(s[1..], c);
    }
  }

  lemma {:induction false} KeptRight(s: string, c: char)
    requires c in s && !IsSpace(c)
    ensures c in StripRight(s)
  {
    if IsSpace(s[|s| - 1]) {
      KeptRight(s[..|s| - 1], c);
    }
  }
}
