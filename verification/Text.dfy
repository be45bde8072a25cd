/** The Python string operations the modelled files share: strip, split, join, splitlines. */
module Text {
  import opened Common

  predicate IsSpace(c: char) {
    c == ' ' || c == '\t' || c == '\n' || c == '\r' || c == '\U{0B}' || c == '\U{0C}'
  }

  /** A nonempty string `str.split()` would never cut. */
  predicate IsWord(s: string) {
    s != "" && forall i :: 0 <= i < |s| ==> !IsSpace(s[i])
  }

  function StripLeft(s: string): (r: string) {
    if s != "" && IsSpace(s[0]) then StripLeft(s[1..]) else s
  }

  function StripRight(s: string): (r: string) {
    if s != "" && IsSpace(s[|s| - 1]) then StripRight(s[..|s| - 1]) else s
  }

  function Strip(s: string): (r: string) {
    StripRight(StripLeft(s))
  }

  /** `s.split(sep)`: never empty, and no piece contains `sep`. */
  function Split(s: string, sep: char): (r: seq<string>)
    ensures |r| >= 1
    ensures forall i :: 0 <= i < |r| ==> sep !in r[i]
    ensures sep !in s ==> r == [s]
  {
    if s == "" then
      [""]
    else if s[0] == sep then
      [""] + Split(s[1..], sep)
    else
      var rest := Split(s[1..], sep);
      assert s == [s[0]] + s[1..];
      [[s[0]] + rest[0]] + rest[1..]
  }

  /** `sep.join(pieces)`. */
  function Join(pieces: seq<string>, sep: string): string {
    if |pieces| == 0 then ""
    else if |pieces| == 1 then pieces[0]
    else pieces[0] + sep + Join(pieces[1..], sep)
  }

  lemma {:induction false} JoinOfSplit(s: string, sep: char)
    ensures Join(Split(s, sep), [sep]) == s
  {
    if s != "" {
      JoinOfSplit(s[1..], sep);
      var rest := Split(s[1..], sep);
      if s[0] == sep {
        assert Split(s, sep)[1..] == rest;
      } else {
        assert Split(s, sep)[1..] == rest[1..];
      }
      assert s == [s[0]] + s[1..];
    }
  }

  lemma {:induction false} SplitPrepend(p: string, s: string, sep: char)
    requires sep !in p
    ensures Split(p + s, sep) == [p + Split(s, sep)[0]] + Split(s, sep)[1..]
  {
    var r := Split(s, sep);
    if p == "" {
      assert p + s == s && p + r[0] == r[0];
    } else {
      SplitPrepend(p[1..], s, sep);
      assert (p + s)[1..] == p[1..] + s;
      assert [p[0]] + (p[1..] + r[0]) == p + r[0];
    }
  }

  lemma {:induction false} SplitOfJoin(pieces: seq<string>, sep: char)
    requires |pieces| >= 1
    requires forall i :: 0 <= i < |pieces| ==> sep !in pieces[i]
    ensures Split(Join(pieces, [sep]), sep) == pieces
  {
    if |pieces| == 1 {
    } else {
      var tail := Join(pieces[1..], [sep]);
      SplitOfJoin(pieces[1..], sep);
      SplitPrepend(pieces[0], [sep] + tail, sep);
      assert ([sep] + tail)[1..] == tail;
      assert pieces[0] + [sep] + tail == pieces[0] + ([sep] + tail);
      assert Split([sep] + tail, sep) == [""] + pieces[1..];
      assert pieces[0] + "" == pieces[0];
    }
  }

  /** Joining a concatenation. */
  lemma {:induction false} JoinAppend(a: seq<string>, b: seq<string>, sep: string)
    requires |a| >= 1 && |b| >= 1
    ensures Join(a + b, sep) == Join(a, sep) + sep + Join(b, sep)
  {
    if |a| == 1 {
      assert (a + b)[1..] == b;
    } else {
      JoinAppend(a[1..], b, sep);
      assert (a + b)[1..] == a[1..] + b;
    }
  }

  /** Length of the leading run of non-space characters. */
  function WordLen(s: string): (n: nat)
    ensures n <= |s|
    ensures forall i :: 0 <= i < n ==> !IsSpace(s[i])
    ensures n < |s| ==> IsSpace(s[n])
  {
    if s == "" || IsSpace(s[0]) then 0 else 1 + WordLen(s[1..])
  }

  /** `s.split()`. */
  function Words(s: string): (ws: seq<string>)
    ensures forall i :: 0 <= i < |ws| ==> IsWord(ws[i])
    decreases |s|
  {
    if s == "" then []
    else if IsSpace(s[0]) then Words(s[1..])
    else
      var n := WordLen(s);
      [s[..n]] + Words(s[n..])
  }

  lemma {:induction false} WordLenOfWord(w: string, s: string)
    requires IsWord(w)
    requires s == "" || IsSpace(s[0])
    ensures WordLen(w + s) == |w|
  {
    assert (w + s)[1..] == w[1..] + s;
    if |w| > 1 {
      assert forall i :: 0 <= i < |w| - 1 ==> w[1..][i] == w[i + 1];
      WordLenOfWord(w[1..], s);
    } else {
      assert w[1..] + s == s;
    }
  }

  lemma {:induction false} WordsCons(w: string, s: string)
    requires IsWord(w)
    requires s == "" || IsSpace(s[0])
    ensures Words(w + s) == [w] + Words(s)
  {
    WordLenOfWord(w, s);
    assert (w + s)[..|w|] == w && (w + s)[|w|..] == s;
    assert (w + s)[0] == w[0];
  }

  /** Writing words separated by one space and reading them back gives the words. */
  lemma {:induction false} WordsOfJoin(ws: seq<string>)
    requires forall i :: 0 <= i < |ws| ==> IsWord(ws[i])
    ensures Words(Join(ws, " ")) == ws
  {
    if |ws| == 0 {
    } else if |ws| == 1 {
      WordsCons(ws[0], "");
      assert ws[0] + "" == ws[0];
    } else {
      var tail := Join(ws[1..], " ");
      WordsOfJoin(ws[1..]);
      WordsCons(ws[0], " " + tail);
      assert (" " + tail)[1..] == tail;
      assert ws[0] + " " + tail == ws[0] + (" " + tail);
      assert ws == [ws[0]] + ws[1..];
    }
  }

  /** `list(dict.fromkeys(tokens))`: the first occurrence of every token not yet seen. */
  function Deduped(tokens: seq<string>, seen: set<string>): (r: seq<string>)
    ensures forall t :: t in r <==> t in tokens && t !in seen
    ensures forall i, j :: 0 <= i < j < |r| ==> r[i] != r[j]
  {
    if tokens == [] then []
    else if tokens[0] in seen then Deduped(tokens[1..], seen)
    else [tokens[0]] + Deduped(tokens[1..], seen + {tokens[0]})
  }

  /** The lines of a text that ends every line with '\n'. */
  function Unlines(ls: seq<string>): string {
    if ls == [] then "" else ls[0] + "\n" + Unlines(ls[1..])
  }

  /** `text.splitlines()`, with '\n' as the only line break. */
  function Lines(text: string): (ls: seq<string>)
    ensures forall i :: 0 <= i < |ls| ==> '\n' !in ls[i]
  {
    var pieces := Split(text, '\n');
    if pieces[|pieces| - 1] == "" then pieces[..|pieces| - 1] else pieces
  }

  lemma {:induction false} SplitUnlines(ls: seq<string>)
    requires forall i :: 0 <= i < |ls| ==> '\n' !in ls[i]
    ensures Split(Unlines(ls), '\n') == ls + [""]
  {
    if ls != [] {
      SplitUnlines(ls[1..]);
      SplitPrepend(ls[0], "\n" + Unlines(ls[1..]), '\n');
      assert ("\n" + Unlines(ls[1..]))[1..] == Unlines(ls[1..]);
      assert ls[0] + "\n" + Unlines(ls[1..]) == ls[0] + ("\n" + Unlines(ls[1..]));
      assert ls[0] + "" == ls[0];
      assert ls == [ls[0]] + ls[1..];
    }
  }

  lemma LinesOfUnlines(ls: seq<string>)
    requires forall i :: 0 <= i < |ls| ==> '\n' !in ls[i]
    ensures Lines(Unlines(ls)) == ls
  {
    SplitUnlines(ls);
  }

  predicate IsDigit(c: char) {
    '0' <= c <= '9'
  }

  function DigitChar(d: nat): (c: char)
    requires d < 10
    ensures IsDigit(c)
  {
    ('0' as int + d) as char
  }

  /** `str(n)`. */
  function Decimal(n: nat): (s: string)
    ensures s != "" && forall i :: 0 <= i < |s| ==> IsDigit(s[i])
  {
    if n < 10 then [DigitChar(n)] else Decimal(n / 10) + [DigitChar(n % 10)]
  }

  /** A single `_` may stand between two digits. */
  function WithoutMark(s: string): (r: string)
    ensures |r| <= |s|
  {
    if |s| > 1 && s[|s| - 1] == '_' then s[..|s| - 1] else s
  }

  /** The digits of `int(s)`. */
  function ParseNat(s: string): Option<int> {
    if s == "" || !IsDigit(s[|s| - 1]) then None
    else
      var d := s[|s| - 1] as int - '0' as int;
      if |s| == 1 then Some(d)
      else match ParseNat(WithoutMark(s[..|s| - 1]))
        case None => None
        case Some(n) => Some(10 * n + d)
  }

  /** `int(text)`: spaces around and a sign are accepted. */
  function ParseInt(text: string): Option<int> {
    var s := Strip(text);
    if s != "" && s[0] == '-' then
      match ParseNat(s[1..])
      case None => None
      case Some(n) => Some(-n)
    else match ParseNat(if s != "" && s[0] == '+' then s[1..] else s)
      case None => None
      case Some(n) => Some(n)
  }

  lemma {:induction false} ParseNatOfDecimal(n: nat)
    ensures ParseNat(Decimal(n)) == Some(n)
  {
    if n >= 10 {
      ParseNatOfDecimal(n / 10);
      var s := Decimal(n);
      assert s[..|s| - 1] == Decimal(n / 10);
    }
  }

  lemma {:induction false} ParseIntOfDecimal(n: nat)
    ensures ParseInt(Decimal(n)) == Some(n)
  {
    var s := Decimal(n);
    assert IsDigit(s[0]) && IsDigit(s[|s| - 1]);
    assert StripLeft(s) == s && StripRight(s) == s;
    ParseNatOfDecimal(n);
  }

  // ---------------------------------------------------------------- words and first occurrences

  /** Blanks, tabs and line breaks separate words, and nothing visible does. */
  lemma Spaces(c: char)
    ensures c in " \t\n\r" ==> IsSpace(c)
    ensures c > ' ' ==> !IsSpace(c)
  {
  }

  /** A space cuts the words, whatever is on either side of it. */
  lemma {:induction false} WordsCut(a: string, c: char, b: string, all: string)
    requires IsSpace(c) && all == a + [c] + b
    ensures Words(all) == Words(a) + Words(b)
    decreases |a|
  {
    if a == "" {
      assert all[1..] == b;
    } else if IsSpace(a[0]) {
      WordsCut(a[1..], c, b, all[1..]);
    } else {
      var n := WordLen(a);
      var word, rest := a[..n], a[n..];
      assert a == word + rest && all == word + (rest + [c] + b);
      WordsCons(word, rest + [c] + b);
      WordsCut(rest, c, b, rest + [c] + b);
    }
  }

  /** Where a token first stands. */
  function FirstAt(tokens: seq<string>, t: string): (n: nat)
    ensures n <= |tokens| && (n < |tokens| ==> tokens[n] == t) && forall i :: 0 <= i < n ==> tokens[i] != t
  {
    if tokens == [] || tokens[0] == t then 0 else 1 + FirstAt(tokens[1..], t)
  }

  /** The tokens kept stand in the order of their first occurrences. */
  lemma {:induction false} DedupedInOrder(tokens: seq<string>, seen: set<string>, i: nat, j: nat)
    requires i < j < |Deduped(tokens, seen)|
    ensures FirstAt(tokens, Deduped(tokens, seen)[i]) < FirstAt(tokens, Deduped(tokens, seen)[j])
    decreases |tokens|
  {
    var r := Deduped(tokens, seen);
    var x, y := r[i], r[j];
    assert x in r && y in r;
    if tokens[0] in seen {
      DedupedInOrder(tokens[1..], seen, i, j);
      FirstAtNext(tokens, x);
      FirstAtNext(tokens, y);
    } else if i > 0 {
      var rest := Deduped(tokens[1..], seen + {tokens[0]});
      assert x == rest[i - 1] && y == rest[j - 1] && x in rest && y in rest;
      DedupedInOrder(tokens[1..], seen + {tokens[0]}, i - 1, j - 1);
      FirstAtNext(tokens, x);
      FirstAtNext(tokens, y);
    } else {
      assert FirstAt(tokens, x) == 0 && y != x;
    }
  }

  lemma FirstAtNext(tokens: seq<string>, t: string)
    requires tokens != [] && tokens[0] != t
    ensures FirstAt(tokens, t) == 1 + FirstAt(tokens[1..], t)
  {
  }

  // ---------------------------------------------------------------- order kept

  /** `sub` is what remains of `all` after striking out some elements. */
  predicate Subsequence(sub: seq<string>, all: seq<string>) {
    if sub == [] then true
    else if all == [] then false
    else if sub[|sub| - 1] == all[|all| - 1] then Subsequence(sub[..|sub| - 1], all[..|all| - 1])
    else Subsequence(sub, all[..|all| - 1])
  }

  lemma StrikeLast(sub: seq<string>, all: seq<string>, x: string)
    requires Subsequence(sub, all)
    ensures Subsequence(sub, all + [x])
    decreases |all|, 1
  {
    assert (all + [x])[..|all|] == all;
    if sub != [] && sub[|sub| - 1] == x {
      var front := sub[..|sub| - 1];
      ShorterSub(sub, all);
    }
  }

  lemma {:induction false} ShorterSub(sub: seq<string>, all: seq<string>)
    requires sub != [] && Subsequence(sub, all)
    ensures Subsequence(sub[..|sub| - 1], all)
    decreases |all|, 0
  {
    var front, init := sub[..|sub| - 1], all[..|all| - 1];
    if sub[|sub| - 1] == all[|all| - 1] {
      StrikeLast(front, init, all[|all| - 1]);
    } else {
      ShorterSub(sub, init);
      StrikeLast(front, init, all[|all| - 1]);
    }
    assert all == init + [all[|all| - 1]];
  }

  lemma {:induction false} WholeSub(s: seq<string>)
    ensures Subsequence(s, s)
  {
    if s != [] {
      WholeSub(s[..|s| - 1]);
    }
  }

  /** An element in front of the whole, struck out or not. */
  lemma {:induction false} SubFirst(x: string, sub: seq<string>, all: seq<string>, more: seq<string>)
    requires Subsequence(sub, all) && more == [x] + all
    ensures Subsequence(sub, more) && Subsequence([x] + sub, more)
    decreases |all|
  {
    var with := [x] + sub;
    if all == [] {
      assert more[..0] == [] && with[..0] == [];
    } else {
      var init, last := all[..|all| - 1], all[|all| - 1];
      assert more[..|more| - 1] == [x] + init && more[|more| - 1] == last;
      if sub == [] {
        SubFirst(x, [], init, [x] + init);
        assert with == [x] && with[..0] == [] && [x] + [] == with;
      } else if sub[|sub| - 1] == last {
        SubFirst(x, sub[..|sub| - 1], init, [x] + init);
        assert with[..|with| - 1] == [x] + sub[..|sub| - 1];
      } else {
        SubFirst(x, sub, init, [x] + init);
      }
    }
  }
}
