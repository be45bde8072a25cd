/** Asking the AUR for dependencies: batched requests and the memo in front of them. */
module AurMemo {
  import opened Common
  import opened Text

  datatype Result<T> = Ok(value: T) | Invalid | Unavailable

  type Deps = seq<string>

  const MAX_QUERY_CHARS := 3500

  // ---------------------------------------------------------------- names and queries

  predicate IsAlnum(c: char) {
    'a' <= c <= 'z' || 'A' <= c <= 'Z' || '0' <= c <= '9'
  }

  /** `_VALID_PKG_NAME`. */
  predicate IsName(s: string) {
    s != "" && IsAlnum(s[0])
    && forall i :: 0 <= i < |s| ==> IsAlnum(s[i]) || s[i] in {'@', '.', '_', '+', '-'}
  }

  /** `urllib.parse.quote` on the characters of a package name. */
  function Quote(s: string): string {
    if s == "" then ""
    else (if s[0] == '@' then "%40" else if s[0] == '+' then "%2B" else [s[0]]) + Quote(s[1..])
  }

  /** What `_batches` counts for one name. */
  function Piece(name: string): nat {
    |"&arg[]="| + |Quote(name)|
  }

  function Weight(names: seq<string>): nat {
    if names == [] then 0 else Piece(names[0]) + Weight(names[1..])
  }

  /** The query string `urlencode` builds: the brackets are percent-encoded. */
  function Query(names: seq<string>): string {
    if names == [] then ""
    else if |names| == 1 then "arg%5B%5D=" + Quote(names[0])
    else "arg%5B%5D=" + Quote(names[0]) + "&" + Query(names[1..])
  }

  /** The real query is four characters longer per name than what is counted, less one. */
  lemma {:induction false} QueryLength(names: seq<string>)
    requires names != []
    ensures |Query(names)| == Weight(names) + 4 * |names| - 1
  {
    if |names| > 1 {
      QueryLength(names[1..]);
    } else {
      assert names[1..] == [];
    }
  }

  // ---------------------------------------------------------------- batches

  function Concat(batches: seq<seq<string>>): seq<string> {
    if batches == [] then [] else Concat(batches[..|batches| - 1]) + batches[|batches| - 1]
  }

  /** Within the limit, or a single name nothing can be taken from. */
  predicate Fits(batch: seq<string>) {
    batch != [] && (Weight(batch) <= MAX_QUERY_CHARS || |batch| == 1)
  }

  /** The last batch before `batch` could not have taken its first name. */
  predicate Follows(batches: seq<seq<string>>, batch: seq<string>) {
    batch != [] && (batches != [] ==> Weight(batches[|batches| - 1]) + Piece(batch[0]) > MAX_QUERY_CHARS)
  }

  /** Every batch fits, and none could have taken the first name of the next. */
  predicate Greedy(batches: seq<seq<string>>) {
    batches != [] ==>
      var front, last := batches[..|batches| - 1], batches[|batches| - 1];
      Greedy(front) && Fits(last) && Follows(front, last)
  }

  lemma GreedySnoc(batches: seq<seq<string>>, batch: seq<string>)
    ensures Greedy(batches + [batch]) <==> Greedy(batches) && Fits(batch) && Follows(batches, batch)
    ensures Concat(batches + [batch]) == Concat(batches) + batch
  {
    assert (batches + [batch])[..|batches|] == batches;
  }

  lemma {:induction false} GreedyFits(batches: seq<seq<string>>, i: nat)
    requires Greedy(batches) && i < |batches|
    ensures Fits(batches[i])
  {
    if i < |batches| - 1 {
      GreedyFits(batches[..|batches| - 1], i);
    }
  }

  lemma {:induction false} WeightSnoc(names: seq<string>, name: string)
    ensures Weight(names + [name]) == Weight(names) + Piece(name)
  {
    if names == [] {
      assert names + [name] == [name] && [name][1..] == [];
    } else {
      WeightSnoc(names[1..], name);
      assert (names + [name])[1..] == names[1..] + [name];
    }
  }

  /** The batches so far, with the one being filled. */
  ghost predicate Filling(batches: seq<seq<string>>, current: seq<string>, length: nat, names: seq<string>) {
    && Concat(batches) + current == names
    && length == Weight(current)
    && Greedy(batches)
    && (if current == [] then batches == [] else Fits(current) && Follows(batches, current))
  }

  lemma CloseBatch(batches: seq<seq<string>>, current: seq<string>, length: nat, names: seq<string>, name: string)
    requires Filling(batches, current, length, names) && current != [] && length + Piece(name) > MAX_QUERY_CHARS
    ensures Filling(batches + [current], [name], Piece(name), names + [name])
  {
    GreedySnoc(batches, current);
    assert [name][1..] == [];
  }

  lemma GrowBatch(batches: seq<seq<string>>, current: seq<string>, length: nat, names: seq<string>, name: string)
    requires Filling(batches, current, length, names) && (current == [] || length + Piece(name) <= MAX_QUERY_CHARS)
    ensures Filling(batches, current + [name], length + Piece(name), names + [name])
  {
    WeightSnoc(current, name);
    assert Concat(batches) + (current + [name]) == Concat(batches) + current + [name];
    assert current != [] ==> (current + [name])[0] == current[0];
  }

  lemma FillStep(batches: seq<seq<string>>, current: seq<string>, length: nat, names: seq<string>, i: nat, full: bool)
    requires i < |names| && Filling(batches, current, length, names[..i])
    requires full == (current != [] && length + Piece(names[i]) > MAX_QUERY_CHARS)
    ensures full ==> Filling(batches + [current], [names[i]], Piece(names[i]), names[..i + 1])
    ensures !full ==> Filling(batches, current + [names[i]], length + Piece(names[i]), names[..i + 1])
  {
    assert names[..i + 1] == names[..i] + [names[i]];
    if full {
      CloseBatch(batches, current, length, names[..i], names[i]);
    } else {
      GrowBatch(batches, current, length, names[..i], names[i]);
    }
  }

  lemma FillEnd(batches: seq<seq<string>>, current: seq<string>, length: nat, names: seq<string>)
    requires Filling(batches, current, length, names)
    ensures var all := if current != [] then batches + [current] else batches;
            Concat(all) == names && Greedy(all) && forall i :: 0 <= i < |all| ==> Fits(all[i])
  {
    GreedySnoc(batches, current);
    var all := if current != [] then batches + [current] else batches;
    forall i | 0 <= i < |all|
      ensures Fits(all[i])
    {
      GreedyFits(all, i);
    }
  }

  /** `_batches`: the names in order, cut as late as the limit allows. */
  method Batches(names: seq<string>) returns (batches: seq<seq<string>>)
    ensures Concat(batches) == names
    ensures Greedy(batches)
    ensures forall i :: 0 <= i < |batches| ==> Fits(batches[i])
  {
    batches := [];
    var current: seq<string> := [];
    var length: nat := 0;
    for i := 0 to |names|
      invariant Filling(batches, current, length, names[..i])
    {
      var piece := Piece(names[i]);
      var full := current != [] && length + piece > MAX_QUERY_CHARS;
      FillStep(batches, current, length, names, i, full);
      if full {
        batches := batches + [current];
        current, length := [names[i]], piece;
      } else {
        current, length := current + [names[i]], length + piece;
      }
    }
    assert names[..|names|] == names;
    FillEnd(batches, current, length, names);
    if current != [] {
      batches := batches + [current];
    }
  }

  // ---------------------------------------------------------------- the limit on request URIs

  /** What aurweb documents; the counted limit is meant to stay well under it. */
  const URI_CAP := 4443

  const INFO_URL := "https://aur.archlinux.org/rpc/v5/info"

  /** What is requested for one batch. */
  function Url(batch: seq<string>): string {
    INFO_URL + "?" + Query(batch)
  }

  lemma {:induction false} UrlLength(batch: seq<string>)
    requires batch != []
    ensures |Url(batch)| == 37 + Weight(batch) + 4 * |batch|
  {
    QueryLength(batch);
    assert |INFO_URL| == 37;
  }

  lemma {:induction false} LeastWeight(names: seq<string>)
    requires forall x :: x in names ==> |Quote(x)| >= 9
    ensures Weight(names) >= 16 * |names|
  {
    if names != [] {
      assert names[0] in names && forall x :: x in names[1..] ==> x in names;
      LeastWeight(names[1..]);
    }
  }

  lemma {:induction false} EightsWeight(names: seq<string>)
    requires forall x :: x in names ==> |Quote(x)| == 8
    ensures Weight(names) == 15 * |names|
  {
    if names != [] {
      assert names[0] in names && forall x :: x in names[1..] ==> x in names;
      EightsWeight(names[1..]);
    }
  }

  /** What `aur_depends` hands to `_batches`: valid names, each once. */
  predicate Requested(names: seq<string>) {
    NoRepeats(names) && forall n :: n in names ==> IsName(n)
  }

  /** A request for more than one of these names, each of at least `n` quoted characters. */
  ghost predicate AskedFor(batch: seq<string>, names: seq<string>, batches: seq<seq<string>>, n: nat) {
    && Requested(names) && (forall x :: x in names ==> |Quote(x)| >= n)
    && Greedy(batches) && Concat(batches) == names
    && batch in batches && |batch| > 1
  }

  /** Every such request stays within the cap. */
  ghost predicate StaysUnder(n: nat) {
    forall batch, names, batches :: AskedFor(batch, names, batches, n) ==> |Url(batch)| <= URI_CAP
  }

  lemma {:induction false} InConcat(batches: seq<seq<string>>, i: nat, x: string)
    requires i < |batches| && x in batches[i]
    ensures x in Concat(batches)
  {
    if i < |batches| - 1 {
      InConcat(batches[..|batches| - 1], i, x);
    }
  }

  lemma LongNamesFit(batch: seq<string>, names: seq<string>, batches: seq<seq<string>>, n: nat)
    requires n >= 9 && AskedFor(batch, names, batches, n)
    ensures |Url(batch)| <= URI_CAP
  {
    var i :| 0 <= i < |batches| && batches[i] == batch;
    GreedyFits(batches, i);
    forall x | x in batch
      ensures |Quote(x)| >= 9
    {
      InConcat(batches, i, x);
    }
    LeastWeight(batch);
    UrlLength(batch);
  }

  // Names of eight characters: `p` and seven digits.

  function Fixed(i: nat, width: nat): (s: string)
    ensures |s| == width && forall c :: c in s ==> IsDigit(c)
  {
    if width == 0 then "" else Fixed(i / 10, width - 1) + [DigitChar(i % 10)]
  }

  function Pow10(width: nat): nat {
    if width == 0 then 1 else 10 * Pow10(width - 1)
  }

  lemma {:induction false} FixedInjective(i: nat, j: nat, width: nat)
    requires i < Pow10(width) && j < Pow10(width) && Fixed(i, width) == Fixed(j, width)
    ensures i == j
  {
    if width > 0 {
      var s, t := Fixed(i, width), Fixed(j, width);
      assert s[width - 1] == t[width - 1];
      assert s[..width - 1] == Fixed(i / 10, width - 1) && t[..width - 1] == Fixed(j / 10, width - 1);
      FixedInjective(i / 10, j / 10, width - 1);
    }
  }

  function Numbered(i: nat): string {
    "p" + Fixed(i, 7)
  }

  function FirstNames(k: nat): (names: seq<string>)
    ensures |names| == k && forall i :: 0 <= i < k ==> names[i] == Numbered(i)
  {
    if k == 0 then [] else FirstNames(k - 1) + [Numbered(k - 1)]
  }

  lemma {:induction false} QuotePlain(s: string)
    requires forall c :: c in s ==> IsAlnum(c)
    ensures |Quote(s)| == |s|
  {
    if s != "" {
      assert s[0] in s && forall c :: c in s[1..] ==> c in s;
      QuotePlain(s[1..]);
    }
  }

  lemma NumberedName(i: nat)
    ensures IsName(Numbered(i)) && |Quote(Numbered(i))| == 8
  {
    var s := Numbered(i);
    forall k | 0 <= k < |s|
      ensures IsAlnum(s[k])
    {
      if k > 0 {
        assert s[k] == Fixed(i, 7)[k - 1] && Fixed(i, 7)[k - 1] in Fixed(i, 7);
      }
    }
    QuotePlain(s);
  }

  lemma SevenDigits()
    ensures Pow10(7) == 10000000
  {
    assert Pow10(1) == 10 && Pow10(2) == 100 && Pow10(3) == 1000;
    assert Pow10(4) == 10000 && Pow10(5) == 100000 && Pow10(6) == 1000000;
  }

  lemma FirstNamesRequested(k: nat)
    requires k <= 1000
    ensures Requested(FirstNames(k))
    ensures forall x :: x in FirstNames(k) ==> |Quote(x)| == 8
  {
    var names := FirstNames(k);
    SevenDigits();
    forall i, j | 0 <= i < j < k
      ensures names[i] != names[j]
    {
      if names[i] == names[j] {
        assert Fixed(i, 7) == names[i][1..] && Fixed(j, 7) == names[j][1..];
        FixedInjective(i, j, 7);
      }
    }
    forall x | x in names
      ensures IsName(x) && |Quote(x)| == 8
    {
      var i :| 0 <= i < k && names[i] == x;
      NumberedName(i);
    }
  }

  lemma {:induction false} WeightAppend(a: seq<string>, b: seq<string>)
    ensures Weight(a + b) == Weight(a) + Weight(b)
  {
    if a == [] {
      assert a + b == b;
    } else {
      WeightAppend(a[1..], b);
      assert (a + b)[1..] == a[1..] + b;
    }
  }

  lemma FirstWeight(names: seq<string>)
    requires names != []
    ensures Weight(names) >= Piece(names[0])
  {
  }

  lemma TwoBatchesHeavy(batches: seq<seq<string>>)
    requires Greedy(batches)
    ensures |batches| > 1 ==> Weight(Concat(batches)) > MAX_QUERY_CHARS
  {
    if |batches| > 1 {
      var front, last := batches[..|batches| - 1], batches[|batches| - 1];
      var early, f := front[..|front| - 1], front[|front| - 1];
      assert Follows(front, last);
      WeightAppend(Concat(front), last);
      WeightAppend(Concat(early), f);
      FirstWeight(last);
    }
  }

  /** Names that fit in one batch are put in one batch. */
  lemma OneBatch(batches: seq<seq<string>>)
    requires Greedy(batches) && Concat(batches) != [] && Weight(Concat(batches)) <= MAX_QUERY_CHARS
    ensures batches == [Concat(batches)]
  {
    TwoBatchesHeavy(batches);
    var only := batches[0];
    assert batches == [only];
    assert batches[..0] == [] && Concat(batches) == [] + only;
    assert [] + only == only;
  }

  lemma ShortNamesOutgrow(names: seq<string>)
    requires |names| == 233 && forall x :: x in names ==> |Quote(x)| == 8
    ensures Fits(names) && |Url(names)| > URI_CAP
  {
    EightsWeight(names);
    UrlLength(names);
  }

  lemma ShortNamesAsked(names: seq<string>, n: nat)
    requires n <= 8 && Requested(names) && |names| == 233 && forall x :: x in names ==> |Quote(x)| == 8
    ensures !StaysUnder(n)
  {
    ShortNamesOutgrow(names);
    GreedySnoc([], names);
    assert [] + [names] == [names] && [] + names == names;
    assert AskedFor(names, names, [names], n);
  }

  /** The counted limit keeps every request for several names within the cap exactly when names have
      at least nine quoted characters: of eight characters, 233 fit one batch and outgrow it. */
  lemma StaysUnderIff(n: nat)
    ensures StaysUnder(n) <==> n >= 9
  {
    if n >= 9 {
      forall batch, names, batches | AskedFor(batch, names, batches, n)
        ensures |Url(batch)| <= URI_CAP
      {
        LongNamesFit(batch, names, batches, n);
      }
    } else {
      FirstNamesRequested(233);
      ShortNamesAsked(FirstNames(233), n);
    }
  }

  /** `_batches` on 233 such names returns the one request that is too long. */
  method BatchesOutgrow() returns (names: seq<string>, batches: seq<seq<string>>)
    ensures Requested(names) && batches == [names] && |Url(batches[0])| > URI_CAP
  {
    names := FirstNames(233);
    FirstNamesRequested(233);
    ShortNamesOutgrow(names);
    batches := Batches(names);
    OneBatch(batches);
  }

  // ---------------------------------------------------------------- the memo

  /** One request: the names asked for, and whether an answer came. */
  datatype Request = Request(names: seq<string>, answered: bool)

  /** The AUR: the packages there are, with their dependencies. */
  type Remote = map<string, Deps>

  function Answer(remote: Remote, name: string): Option<Deps> {
    if name in remote then Some(remote[name]) else None
  }

  predicate Apart(a: seq<string>, b: seq<string>) {
    forall x :: x in a ==> x !in b
  }

  /** No name answered once is asked for again. */
  predicate NeverAgain(requests: seq<Request>) {
    forall i, j :: 0 <= i < j < |requests| && requests[i].answered ==> Apart(requests[i].names, requests[j].names)
  }

  /** Every name of an answered request is in the memo. */
  predicate Remembered(requests: seq<Request>, cache: map<string, Option<Deps>>) {
    forall i :: 0 <= i < |requests| && requests[i].answered ==> forall n :: n in requests[i].names ==> n in cache
  }

  predicate Agrees(cache: map<string, Option<Deps>>, remote: Remote) {
    forall n :: n in cache ==> cache[n] == Answer(remote, n)
  }

  lemma AskNew(requests: seq<Request>, cache: map<string, Option<Deps>>, request: Request)
    requires NeverAgain(requests) && Remembered(requests, cache)
    requires forall n :: n in request.names ==> n !in cache
    ensures NeverAgain(requests + [request])
  {
    forall i | 0 <= i < |requests| && requests[i].answered
      ensures Apart(requests[i].names, request.names)
    {
      assert forall n :: n in requests[i].names ==> n in cache;
    }
  }

  lemma {:induction false} ConcatParts(batches: seq<seq<string>>, i: nat)
    requires i < |batches|
    ensures Concat(batches[..i + 1]) == Concat(batches[..i]) + batches[i]
    ensures Concat(batches[..i + 1]) <= Concat(batches)
    decreases |batches|
  {
    assert batches[..i + 1][..i] == batches[..i];
    if i + 1 < |batches| {
      var front := batches[..|batches| - 1];
      ConcatParts(front, i);
      assert front[..i + 1] == batches[..i + 1];
    } else {
      assert batches[..i + 1] == batches;
    }
  }

  /** The next batch asks for nothing an earlier one asked for. */
  lemma {:induction false} BatchIsNew(batches: seq<seq<string>>, i: nat, name: string)
    requires i < |batches| && NoRepeats(Concat(batches)) && name in batches[i]
    ensures name !in Concat(batches[..i]) && name in Concat(batches)
  {
    ConcatParts(batches, i);
    var all, done := Concat(batches), Concat(batches[..i]);
    var k :| 0 <= k < |batches[i]| && batches[i][k] == name;
    assert all[|done| + k] == name;
    forall j | 0 <= j < |done|
      ensures done[j] != name
    {
      assert all[j] == done[j];
    }
  }

  function NamesIn(names: seq<string>): set<string> {
    set n | n in names
  }

  class PackageResolver {
    const remote: Remote
    var cache: map<string, Option<Deps>>
    ghost var requests: seq<Request>

    ghost predicate Valid()
      reads this
    {
      Agrees(cache, remote) && Remembered(requests, cache) && NeverAgain(requests)
    }

    constructor (remote: Remote)
      ensures Valid() && this.remote == remote && cache == map[] && requests == []
    {
      this.remote, cache, requests := remote, map[], [];
    }

    /** One request that succeeds or not: the packages of the batch there are. */
    method FetchBatch(batch: seq<string>) returns (fetched: Option<Remote>)
      ensures fetched.Some? ==> forall n :: n in batch ==> Answer(fetched.value, n) == Answer(remote, n)
    {
      var works: bool := *;
      fetched := if works then Some(map n | n in batch && n in remote :: remote[n]) else None;
    }

    /** Fetches one batch and memoizes both outcomes. */
    method AskBatch(batch: seq<string>) returns (ok: bool)
      requires Valid() && forall n :: n in batch ==> n !in cache
      modifies this
      ensures Valid() && requests == old(requests) + [Request(batch, ok)]
      ensures !ok ==> cache == old(cache)
      ensures ok ==> cache.Keys == old(cache).Keys + NamesIn(batch)
      ensures forall n :: n in old(cache) ==> n in cache && cache[n] == old(cache)[n]
    {
      ghost var before := requests;
      AskNew(before, cache, Request(batch, true));
      AskNew(before, cache, Request(batch, false));
      var fetched := FetchBatch(batch);
      ok := fetched.Some?;
      if ok {
        for i := 0 to |batch|
          invariant cache.Keys == old(cache).Keys + NamesIn(batch[..i])
          invariant forall n :: n in old(cache) ==> n in cache && cache[n] == old(cache)[n]
          invariant Agrees(cache, remote) && requests == before
        {
          assert batch[..i + 1] == batch[..i] + [batch[i]];
          if batch[i] !in cache {
            cache := cache[batch[i] := Answer(fetched.value, batch[i])];
          }
        }
        assert batch[..|batch|] == batch;
      }
      RememberMore(before, old(cache), cache, Request(batch, ok));
      requests := before + [Request(batch, ok)];
    }

    /** Fetches everything missing; stops at the first request that fails. */
    method FetchMissing(missing: seq<string>) returns (ok: bool)
      requires Valid() && NoRepeats(missing) && forall n :: n in missing ==> n !in cache
      modifies this
      ensures Valid() && old(requests) <= requests
      ensures forall i :: |old(requests)| <= i < |requests| ==> Fits(requests[i].names)
      ensures forall n :: n in old(cache) ==> n in cache && cache[n] == old(cache)[n]
      ensures cache.Keys <= old(cache).Keys + NamesIn(missing)
      ensures ok ==> cache.Keys == old(cache).Keys + NamesIn(missing)
      ensures missing == [] ==> ok && requests == old(requests)
    {
      var batches := Batches(missing);
      SomethingToAsk(batches);
      for i := 0 to |batches|
        invariant Valid() && old(requests) <= requests
        invariant forall i :: |old(requests)| <= i < |requests| ==> Fits(requests[i].names)
        invariant cache.Keys == old(cache).Keys + NamesIn(Concat(batches[..i]))
        invariant forall n :: n in old(cache) ==> n in cache && cache[n] == old(cache)[n]
        invariant batches == [] ==> requests == old(requests)
      {
        ConcatParts(batches, i);
        forall n | n in batches[i]
          ensures n !in cache
        {
          BatchIsNew(batches, i, n);
        }
        PrefixMembers(Concat(batches[..i]), Concat(batches[..i + 1]), missing);
        ok := AskBatch(batches[i]);
        if !ok {
          return;
        }
        assert NamesIn(Concat(batches[..i + 1])) == NamesIn(Concat(batches[..i])) + NamesIn(batches[i]);
      }
      assert batches[..|batches|] == batches;
      return true;
    }

    /** `aur_depends`: the answer is what asking the AUR directly gives, whatever was asked before. */
    method AurDepends(names: seq<string>) returns (r: Result<Remote>)
      requires Valid()
      modifies this
      ensures Valid() && old(requests) <= requests
      ensures r.Invalid? <==> exists n :: n in names && !IsName(n)
      ensures r.Invalid? ==> cache == old(cache) && requests == old(requests)
      ensures r.Ok? ==> forall n :: n in r.value <==> n in names && n in remote
      ensures r.Ok? ==> forall n :: n in r.value ==> r.value[n] == remote[n]
      ensures r.Ok? ==> forall n :: n in names ==> n in cache
      ensures forall n :: n in old(cache) ==> n in cache && cache[n] == old(cache)[n]
      ensures forall i :: |old(requests)| <= i < |requests| ==> Fits(requests[i].names)
      ensures (forall n :: n in names ==> IsName(n) && n in old(cache)) ==> r.Ok? && requests == old(requests)
    {
      var requested := Deduped(names, {});
      if exists n :: n in requested && !IsName(n) {
        return Invalid;
      }
      var missing := Missing(requested, cache);
      MissingSome(requested, cache);
      var ok := FetchMissing(missing);
      if !ok {
        return Unavailable;
      }
      return Ok(map n | n in requested && n in cache && cache[n].Some? :: cache[n].value);
    }
  }

  lemma SomethingToAsk(batches: seq<seq<string>>)
    requires Greedy(batches)
    ensures batches != [] ==> Concat(batches) != []
  {
    if batches != [] {
      GreedyFits(batches, |batches| - 1);
    }
  }

  lemma MissingSome(requested: seq<string>, cache: map<string, Option<Deps>>)
    requires NoRepeats(requested)
    ensures Missing(requested, cache) != [] ==> exists n :: n in requested && n !in cache
  {
    var r := Missing(requested, cache);
    if r != [] {
      assert r[0] in r;
    }
  }

  lemma RememberMore(requests: seq<Request>, was: map<string, Option<Deps>>, now: map<string, Option<Deps>>, request: Request)
    requires Remembered(requests, was) && was.Keys <= now.Keys
    requires request.answered ==> forall n :: n in request.names ==> n in now
    ensures Remembered(requests + [request], now)
  {
    forall i | 0 <= i < |requests| && requests[i].answered
      ensures forall n :: n in requests[i].names ==> n in now
    {
      assert forall n :: n in requests[i].names ==> n in was;
    }
  }

  lemma PrefixMembers(a: seq<string>, b: seq<string>, all: seq<string>)
    requires a <= all && b <= all
    ensures NamesIn(a) <= NamesIn(all) && NamesIn(b) <= NamesIn(all)
  {
  }

  /** The names not memoized yet, in order. */
  function Missing(requested: seq<string>, cache: map<string, Option<Deps>>): (r: seq<string>)
    requires NoRepeats(requested)
    ensures forall n :: n in r <==> n in requested && n !in cache
    ensures NoRepeats(r)
  {
    if requested == [] then []
    else
      var rest := Missing(requested[1..], cache);
      if requested[0] in cache then rest else [requested[0]] + rest
  }
}
