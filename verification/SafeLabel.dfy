/** Choosing partition labels that are valid and unique on their disk. */
module SafeLabel {
  import opened Common
  import opened Text
  import SetMath

  const MAX_LABEL := 36

  predicate Allowed(c: char) {
    'A' <= c <= 'Z' || 'a' <= c <= 'z' || '0' <= c <= '9' || c == '_' || c == '.' || c == '-'
  }

  predicate AllAllowed(s: string) {
    forall i :: 0 <= i < |s| ==> Allowed(s[i])
  }

  /** `_LABEL_OK`. */
  predicate LabelOk(s: string) {
    1 <= |s| <= MAX_LABEL && AllAllowed(s)
  }

  function Cleaned(s: string): (r: string)
    ensures AllAllowed(r)
  {
    if s == "" then "" else (if Allowed(s[0]) then [s[0]] else "") + Cleaned(s[1..])
  }

  /** `s[:k]` of Python: a negative `k` counts from the end. */
  function Slice(s: string, k: int): (r: string)
    ensures r <= s && (k >= 0 ==> |r| <= k)
  {
    if k >= |s| then s else if k >= 0 then s[..k] else if |s| + k > 0 then s[..|s| + k] else ""
  }

  function Base(fallback: string): (r: string)
    ensures LabelOk(r)
  {
    var cut := Slice(Cleaned(fallback), MAX_LABEL);
    if cut == "" then "part" else cut
  }

  function Suffix(i: nat): string {
    "_" + Decimal(i)
  }

  /** The label the loop tries for counter `i`; before the first turn it is the base itself. */
  function Numbered(base: string, i: nat): string {
    if i == 0 then base else Slice(base, MAX_LABEL - |Suffix(i)|) + Suffix(i)
  }

  // ---------------------------------------------------------------- the counter

  lemma {:induction false} DecimalInjective(i: nat, j: nat)
    requires Decimal(i) == Decimal(j)
    ensures i == j
  {
    var s, t := Decimal(i), Decimal(j);
    assert s[|s| - 1] == t[|t| - 1];
    if i >= 10 && j >= 10 {
      assert s[..|s| - 1] == Decimal(i / 10) && t[..|t| - 1] == Decimal(j / 10);
      DecimalInjective(i / 10, j / 10);
    } else {
      LongDecimal(i);
      LongDecimal(j);
    }
  }

  lemma LongDecimal(i: nat)
    ensures |Decimal(i)| > 1 <==> i >= 10
  {
  }

  lemma {:induction false} DecimalMonotone(i: nat, j: nat)
    requires i <= j
    ensures |Decimal(i)| <= |Decimal(j)|
  {
    if i >= 10 {
      DecimalMonotone(i / 10, j / 10);
    }
  }

  /** The digits after the last underscore tell the counter: no two turns try the same label. */
  lemma NumberedInjective(base: string, i: nat, j: nat)
    requires i > 0 && j > 0 && Numbered(base, i) == Numbered(base, j)
    ensures i == j
  {
    var s := Numbered(base, i);
    UnderscoreAt(base, i);
    UnderscoreAt(base, j);
    var a, b := |Decimal(i)|, |Decimal(j)|;
    assert a == b;
    assert s[|s| - a..] == Decimal(i);
    assert Numbered(base, j)[|s| - b..] == Decimal(j);
    DecimalInjective(i, j);
  }

  lemma UnderscoreAt(base: string, i: nat)
    requires i > 0
    ensures var s, n := Numbered(base, i), |Decimal(i)|;
            && n < |s| && s[|s| - n - 1] == '_'
            && s[|s| - n..] == Decimal(i)
            && forall k :: |s| - n <= k < |s| ==> s[k] != '_'
  {
    var s, d := Numbered(base, i), Decimal(i);
    var front := Slice(base, MAX_LABEL - |Suffix(i)|);
    assert s == front + "_" + d;
    assert s[|s| - |d|..] == d;
    forall k | |s| - |d| <= k < |s|
      ensures s[k] != '_'
    {
      assert s[k] == d[k - (|s| - |d|)];
    }
  }

  /** The labels of the first turns, all of them taken. */
  function Tried(base: string, n: nat): set<string> {
    if n == 0 then {} else Tried(base, n - 1) + {Numbered(base, n)}
  }

  lemma {:induction false} NotTried(base: string, n: nat, m: nat)
    requires n < m
    ensures Numbered(base, m) !in Tried(base, n)
  {
    if n > 0 {
      NotTried(base, n - 1, m);
      if Numbered(base, n) == Numbered(base, m) {
        NumberedInjective(base, n, m);
      }
    }
  }

  /** Every turn tries another label, so a finite set of used ones is soon exhausted. */
  lemma {:induction false} TriedBounded(base: string, n: nat, used: set<string>)
    requires forall i :: 1 <= i <= n ==> Numbered(base, i) in used
    ensures |Tried(base, n)| == n <= |used| && Tried(base, n) <= used
  {
    if n > 0 {
      TriedBounded(base, n - 1, used);
      NotTried(base, n - 1, n);
      SetMath.SubsetSize(Tried(base, n), used);
    }
  }

  lemma NumberedOk(base: string, i: nat)
    requires LabelOk(base) && |Decimal(i)| < MAX_LABEL
    ensures LabelOk(Numbered(base, i))
  {
    if i > 0 {
      var front := Slice(base, MAX_LABEL - |Suffix(i)|);
      assert AllAllowed(front) && AllAllowed(Decimal(i));
    }
  }

  // ---------------------------------------------------------------- the search

  predicate Acceptable(c: Option<string>, used: set<string>) {
    c.Some? && LabelOk(c.value) && c.value !in used
  }

  predicate FirstAcceptable(candidates: seq<Option<string>>, used: set<string>, i: nat)
    requires i < |candidates|
  {
    Acceptable(candidates[i], used) && forall j :: 0 <= j < i ==> !Acceptable(candidates[j], used)
  }

  /** The loop over the candidates. */
  method FirstCandidate(candidates: seq<Option<string>>, used: set<string>) returns (i: nat)
    ensures i <= |candidates|
    ensures i < |candidates| ==> FirstAcceptable(candidates, used, i)
    ensures i == |candidates| ==> forall j :: 0 <= j < |candidates| ==> !Acceptable(candidates[j], used)
  {
    i := 0;
    while i < |candidates| && !Acceptable(candidates[i], used)
      invariant i <= |candidates|
      invariant forall j :: 0 <= j < i ==> !Acceptable(candidates[j], used)
    {
      i := i + 1;
    }
  }

  /** Every label the counter tried below `n` is used. */
  predicate AllUsed(base: string, n: nat, used: set<string>) {
    forall j :: 0 <= j < n ==> Numbered(base, j) in used
  }

  /** The counter loop: the least counter whose label is unused. It ends whatever is used. */
  method Search(base: string, used: set<string>) returns (label_: string, ghost turn: nat)
    ensures label_ == Numbered(base, turn) && label_ !in used
    ensures turn <= |used| + 1 && AllUsed(base, turn, used)
  {
    label_ := base;
    var i: nat := 1;
    while label_ in used
      invariant 1 <= i <= |used| + 2 && label_ == Numbered(base, i - 1)
      invariant AllUsed(base, i - 1, used)
      decreases |used| + 1 - i
    {
      TriedBounded(base, i - 1, used);
      label_ := Numbered(base, i);
      i := i + 1;
    }
    turn := i - 1;
  }

  /** The label `_safe_label` gives: the first acceptable candidate, or the first of the numbered bases
      that is unused. */
  ghost predicate Chosen(candidates: seq<Option<string>>, fallback: string, used: set<string>, label_: string) {
    || (exists i :: 0 <= i < |candidates| && FirstAcceptable(candidates, used, i) && candidates[i] == Some(label_))
    || ((forall j :: 0 <= j < |candidates| ==> !Acceptable(candidates[j], used))
        && label_ !in used && exists turn: nat :: label_ == Numbered(Base(fallback), turn) && AllUsed(Base(fallback), turn, used))
  }

  /** `_safe_label`: the first acceptable candidate, else the base with the least counter that makes
      it unused. The label has at most 36 characters as long as the number of used labels has far
      fewer than 36 digits. */
  method Choose(candidates: seq<Option<string>>, fallback: string, used: set<string>) returns (label_: string, ghost turn: int)
    ensures label_ !in used && Chosen(candidates, fallback, used, label_)
    ensures turn < 0 ==> exists i :: 0 <= i < |candidates| && FirstAcceptable(candidates, used, i) && candidates[i] == Some(label_)
    ensures turn >= 0 ==>
      && (forall j :: 0 <= j < |candidates| ==> !Acceptable(candidates[j], used))
      && turn <= |used| + 1 && label_ == Numbered(Base(fallback), turn) && AllUsed(Base(fallback), turn, used)
    ensures |Decimal(|used| + 1)| < MAX_LABEL ==> LabelOk(label_)
  {
    var i := FirstCandidate(candidates, used);
    if i < |candidates| {
      return candidates[i].value, -1;
    }
    label_, turn := Search(Base(fallback), used);
    if |Decimal(|used| + 1)| < MAX_LABEL {
      DecimalMonotone(turn, |used| + 1);
      NumberedOk(Base(fallback), turn);
    }
  }

  // ---------------------------------------------------------------- what the base is

  lemma {:induction false} CleanedAppend(a: string, b: string, ab: string)
    requires ab == a + b
    ensures Cleaned(ab) == Cleaned(a) + Cleaned(b)
  {
    if a == "" {
      assert ab == b;
    } else {
      CleanedAppend(a[1..], b, ab[1..]);
      var first, rest, end := if Allowed(a[0]) then [a[0]] else "", Cleaned(a[1..]), Cleaned(b);
      assert first + (rest + end) == first + rest + end;
    }
  }

  lemma {:induction false} CleanedAllowed(s: string)
    requires AllAllowed(s)
    ensures Cleaned(s) == s
  {
    if s != "" {
      CleanedAllowed(s[1..]);
      assert s == [s[0]] + s[1..];
    }
  }

  lemma {:induction false} CleanedRest(s: string)
    requires forall i :: 0 <= i < |s| ==> !Allowed(s[i])
    ensures Cleaned(s) == ""
  {
    if s != "" {
      CleanedRest(s[1..]);
    }
  }

  /** A valid role is its own base, one without an allowed character becomes `part`, and characters that
      are not allowed are left out wherever they stand. */
  lemma BaseIs(role: string, a: string, bad: string, b: string)
    ensures LabelOk(role) ==> Base(role) == role
    ensures (forall i :: 0 <= i < |role| ==> !Allowed(role[i])) ==> Base(role) == "part"
    ensures (forall i :: 0 <= i < |bad| ==> !Allowed(bad[i])) ==> Base(a + bad + b) == Base(a + b)
  {
    if AllAllowed(role) {
      CleanedAllowed(role);
    }
    if forall i :: 0 <= i < |role| ==> !Allowed(role[i]) {
      CleanedRest(role);
    }
    if forall i :: 0 <= i < |bad| ==> !Allowed(bad[i]) {
      CleanedRest(bad);
      CleanedAppend(a, bad, a + bad);
      CleanedAppend(a + bad, b, a + bad + b);
      CleanedAppend(a, b, a + b);
      assert Cleaned(a) + "" == Cleaned(a);
    }
  }

  /** A short base keeps all its characters before the counter. */
  lemma NumberedShort(base: string, i: nat)
    requires i > 0 && |base| + 1 + |Decimal(i)| <= MAX_LABEL
    ensures Numbered(base, i) == base + "_" + Decimal(i)
  {
    assert base + ("_" + Decimal(i)) == base + "_" + Decimal(i);
  }

  // ---------------------------------------------------------------- one disk

  lemma GivenSnoc(labels: seq<string>, l: string)
    ensures Given(labels + [l]) == Given(labels) + {l}
  {
  }

  /** What the probe says of one partition that can be described. */
  datatype Node = Node(candidates: seq<Option<string>>, role: string)

  function Given(labels: seq<string>): set<string> {
    set l | l in labels
  }

  ghost predicate AllChosen(nodes: seq<Node>, labels: seq<string>) {
    |labels| <= |nodes| && forall i :: 0 <= i < |labels| ==> ChosenAt(nodes, labels, i)
  }

  ghost predicate ChosenAt(nodes: seq<Node>, labels: seq<string>, i: nat)
    requires i < |labels| <= |nodes|
  {
    Chosen(nodes[i].candidates, nodes[i].role, Given(labels[..i]), labels[i])
  }

  lemma ChosenNext(nodes: seq<Node>, labels: seq<string>, l: string, more: seq<string>)
    requires |labels| < |nodes| && AllChosen(nodes, labels) && more == labels + [l]
    requires Chosen(nodes[|labels|].candidates, nodes[|labels|].role, Given(labels), l)
    ensures AllChosen(nodes, more) && Given(more) == Given(labels) + {l}
  {
    GivenSnoc(labels, l);
    forall i | 0 <= i < |more|
      ensures ChosenAt(nodes, more, i)
    {
      if i < |labels| {
        assert ChosenAt(nodes, labels, i) && more[..i] == labels[..i];
      } else {
        assert more[..i] == labels;
      }
    }
  }

  /** The labels given to the partitions of one disk, in order: each is chosen among those not given
      before, as `_partition_from_node` adds it to `used`. */
  method LabelAll(nodes: seq<Node>) returns (labels: seq<string>)
    ensures |labels| == |nodes|
    ensures AllChosen(nodes, labels)
    ensures forall i, j :: 0 <= i < j < |labels| ==> labels[i] != labels[j]
    ensures |Decimal(|nodes|)| < MAX_LABEL ==> forall l :: l in labels ==> LabelOk(l)
  {
    labels := [];
    var used: set<string> := {};
    for i := 0 to |nodes|
      invariant |labels| == i && |used| == i
      invariant used == Given(labels)
      invariant AllChosen(nodes, labels)
      invariant forall i, j :: 0 <= i < j < |labels| ==> labels[i] != labels[j]
      invariant |Decimal(|nodes|)| < MAX_LABEL ==> forall l :: l in labels ==> LabelOk(l)
    {
      DecimalMonotone(i + 1, |nodes|);
      var l, turn := Choose(nodes[i].candidates, nodes[i].role, used);
      ChosenNext(nodes, labels, l, labels + [l]);
      used := used + {l};
      labels := labels + [l];
    }
  }
}
