/** When two `rootflags=` values describe the same mount (`_rootflags_equivalent`). */
module MountOptions {
  import opened Text

  /** `token.split("=", 1)[0]`. */
  function TokenName(t: string): (r: string)
    ensures r <= t && '=' !in r
    ensures r == t || (|r| < |t| && t[|r|] == '=')
  {
    if t == "" || t[0] == '=' then "" else
      var r := TokenName(t[1..]);
      assert t == [t[0]] + t[1..];
      [t[0]] + r
  }

  /** What follows the first `=`. */
  function TokenValue(t: string): string
    requires TokenName(t) != t
  {
    t[|TokenName(t)| + 1..]
  }

  /** A token without `=` is its own name. */
  lemma FlagName(t: string)
    requires '=' !in t
    ensures TokenName(t) == t
  {
  }

  lemma {:induction false} TokenNameOf(name: string, value: string)
    requires '=' !in name
    ensures TokenName(name) == name
    ensures TokenName(name + "=" + value) == name
    ensures TokenName(name + "=" + value) != name + "=" + value
    ensures TokenValue(name + "=" + value) == value
  {
    if name != "" {
      TokenNameOf(name[1..], value);
      assert name == [name[0]] + name[1..];
      assert (name + "=" + value)[1..] == name[1..] + "=" + value;
    }
  }

  /** Default levels and the four clamps; every other value stays as it is. */
  function NormalizeCompressValue(v: string): string {
    if v == "zstd" then "zstd:3"
    else if v == "zlib" then "zlib:3"
    else if v == "zstd:0" then "zstd:3"
    else if v == "zstd:16" then "zstd:15"
    else if v == "zlib:0" then "zlib:3"
    else if v == "zlib:12" then "zlib:9"
    else v
  }

  /** One option in the form the comparison uses. */
  function Normalize(opt: string): (r: string)
    ensures TokenName(r) == TokenName(opt)
  {
    var name := TokenName(opt);
    if name == "compress" || name == "compress-force" then
      var value := if name == opt then "zlib:3" else NormalizeCompressValue(TokenValue(opt));
      TokenNameOf(name, value);
      name + "=" + value
    else if name == "subvol" && name != opt then
      var raw := TokenValue(opt);
      var kept := if raw != "" && raw[0] == '/' && raw != "/" then raw[1..] else raw;
      TokenNameOf(name, kept);
      name + "=" + kept
    else
      opt
  }

  type Settings = map<string, string>

  /** Every setting is filed under its own option name. */
  predicate Filed(m: Settings) {
    forall k :: k in m ==> TokenName(m[k]) == k
  }

  /** The settings after reading `opts` in order: the last option of a name wins. */
  function Read(m: Settings, opts: seq<string>): (r: Settings)
    ensures Filed(m) ==> Filed(r)
    decreases opts
  {
    if opts == [] then m else Read(m[TokenName(opts[0]) := Normalize(opts[0])], opts[1..])
  }

  function SettingsOf(value: string): (r: Settings)
    ensures Filed(r)
  {
    Read(map[], Split(value, ','))
  }

  function OptionSet(value: string): set<string> {
    SettingsOf(value).Values
  }

  /** `_rootflags_option_set`. */
  method RootflagsOptionSet(value: string) returns (options: set<string>)
    ensures options == OptionSet(value)
  {
    var opts := Split(value, ',');
    var byName: Settings := map[];
    for i := 0 to |opts|
      invariant Read(byName, opts[i..]) == SettingsOf(value)
    {
      byName := byName[TokenName(opts[i]) := Normalize(opts[i])];
    }
    options := byName.Values;
  }

  predicate Equivalent(a: string, b: string) {
    OptionSet(a) == OptionSet(b)
  }

  /** Comparing the bare sets of options loses nothing: two values are equivalent exactly
      when every option name resolves to the same setting in both. */
  lemma EquivalentIffSameSettings(a: string, b: string)
    ensures Equivalent(a, b) <==> SettingsOf(a) == SettingsOf(b)
  {
    var m, n := SettingsOf(a), SettingsOf(b);
    if m.Values == n.Values {
      forall k | k in m
        ensures k in n && n[k] == m[k]
      {
        assert m[k] in n.Values;
        var l :| l in n && n[l] == m[k];
        assert TokenName(n[l]) == l;
      }
      forall k | k in n
        ensures k in m
      {
        assert n[k] in m.Values;
        var l :| l in m && m[l] == n[k];
        assert TokenName(m[l]) == l;
      }
    }
  }

  lemma {:induction false} ReadAppend(m: Settings, a: seq<string>, b: seq<string>, ab: seq<string>)
    requires ab == a + b
    ensures Read(m, ab) == Read(Read(m, a), b)
    decreases a
  {
    if a == [] {
      assert ab == b;
    } else {
      assert ab[0] == a[0];
      ReadAppend(m[TokenName(a[0]) := Normalize(a[0])], a[1..], b, ab[1..]);
    }
  }

  lemma ReadTwo(m: Settings, x: string, y: string, after: seq<string>)
    ensures Read(m, [x, y] + after) == Read(m[TokenName(x) := Normalize(x)][TokenName(y) := Normalize(y)], after)
  {
    assert ([x, y] + after)[1..] == [y] + after;
    assert ([y] + after)[1..] == after;
  }

  lemma SwapUpdates(m: Settings, j: string, v: string, k: string, w: string)
    requires j != k
    ensures m[j := v][k := w] == m[k := w][j := v]
  {
  }

  lemma SwapFirstTwo(m: Settings, x: string, y: string, after: seq<string>)
    requires TokenName(x) != TokenName(y)
    ensures Read(m, [x, y] + after) == Read(m, [y, x] + after)
  {
    ReadTwo(m, x, y, after);
    ReadTwo(m, y, x, after);
    SwapUpdates(m, TokenName(x), Normalize(x), TokenName(y), Normalize(y));
  }

  /** Order does not matter between options of different names. */
  lemma SwapKeepsSettings(before: seq<string>, x: string, y: string, after: seq<string>)
    requires TokenName(x) != TokenName(y)
    ensures Read(map[], before + ([x, y] + after)) == Read(map[], before + ([y, x] + after))
  {
    ReadAppend(map[], before, [x, y] + after, before + ([x, y] + after));
    ReadAppend(map[], before, [y, x] + after, before + ([y, x] + after));
    SwapFirstTwo(Read(map[], before), x, y, after);
  }

  /** Reading the same options keeps two settings equal everywhere but at one name, and
      equal there too once an option of that name has been read. */
  lemma {:induction false} ReadForgets(m: Settings, n: Settings, name: string, opts: seq<string>)
    requires m - {name} == n - {name}
    ensures Read(m, opts) - {name} == Read(n, opts) - {name}
    ensures (exists i :: 0 <= i < |opts| && TokenName(opts[i]) == name) ==> Read(m, opts) == Read(n, opts)
    decreases opts
  {
    if opts != [] {
      var x := opts[0];
      var p, q := m[TokenName(x) := Normalize(x)], n[TokenName(x) := Normalize(x)];
      forall k | k != name
        ensures k in m <==> k in n
        ensures k in m ==> m[k] == n[k]
      {
        assert k in m <==> k in m - {name};
        assert k in n <==> k in n - {name};
      }
      if TokenName(x) == name {
        assert p == q;
      } else {
        ReadForgets(p, q, name, opts[1..]);
        if exists i :: 0 <= i < |opts| && TokenName(opts[i]) == name {
          var i :| 0 <= i < |opts| && TokenName(opts[i]) == name;
          assert TokenName(opts[1..][i - 1]) == name;
        }
      }
    }
  }

  /** An option is overridden by a later one of the same name. */
  lemma LaterOptionWins(before: seq<string>, x: string, after: seq<string>)
    requires exists i :: 0 <= i < |after| && TokenName(after[i]) == TokenName(x)
    ensures Read(map[], before + ([x] + after)) == Read(map[], before + after)
  {
    ReadAppend(map[], before, [x] + after, before + ([x] + after));
    ReadAppend(map[], before, after, before + after);
    OneOverridden(Read(map[], before), x, after);
  }

  lemma {:induction false} OneOverridden(m: Settings, x: string, after: seq<string>)
    requires exists i :: 0 <= i < |after| && TokenName(after[i]) == TokenName(x)
    ensures Read(m, [x] + after) == Read(m, after)
  {
    assert ([x] + after)[1..] == after;
    ReadForgets(m[TokenName(x) := Normalize(x)], m, TokenName(x), after);
  }

  // ---------------------------------------------------------------- what a setting is

  /** Option `i` is the last of its name. */
  predicate LastOfName(opts: seq<string>, name: string, i: nat) {
    i < |opts| && TokenName(opts[i]) == name && forall j :: i < j < |opts| ==> TokenName(opts[j]) != name
  }

  /** A value has a setting for exactly the names of its options, and it is the last one, normalised. */
  lemma {:induction false} SettingIsLast(opts: seq<string>, name: string)
    ensures name in Read(map[], opts) <==> exists i: nat :: LastOfName(opts, name, i)
    ensures forall i: nat :: LastOfName(opts, name, i) ==> name in Read(map[], opts) && Read(map[], opts)[name] == Normalize(opts[i])
  {
    if opts != [] {
      var front, last := opts[..|opts| - 1], opts[|opts| - 1];
      assert opts == front + [last];
      SettingIsLast(front, name);
      ReadAppend(map[], front, [last], opts);
      assert [last][1..] == [];
      if TokenName(last) == name {
        assert LastOfName(opts, name, |front|);
      } else {
        forall i: nat
          ensures LastOfName(opts, name, i) <==> LastOfName(front, name, i)
        {
          LastElsewhere(front, last, opts, name, i);
        }
      }
    }
  }

  lemma LastElsewhere(front: seq<string>, last: string, opts: seq<string>, name: string, i: nat)
    requires opts == front + [last] && TokenName(last) != name
    ensures LastOfName(opts, name, i) <==> LastOfName(front, name, i)
  {
    assert forall j :: 0 <= j < |front| ==> opts[j] == front[j];
  }

  /** The spellings of one compression level. */
  predicate SameLevel(v: string, w: string) {
    || v == w
    || (v in {"zstd", "zstd:0", "zstd:3"} && w in {"zstd", "zstd:0", "zstd:3"})
    || (v in {"zlib", "zlib:0", "zlib:3"} && w in {"zlib", "zlib:0", "zlib:3"})
    || (v in {"zstd:15", "zstd:16"} && w in {"zstd:15", "zstd:16"})
    || (v in {"zlib:9", "zlib:12"} && w in {"zlib:9", "zlib:12"})
  }

  lemma SameLevelIff(v: string, w: string)
    ensures NormalizeCompressValue(v) == NormalizeCompressValue(w) <==> SameLevel(v, w)
  {
  }

  /** Two options of one name are one setting exactly when they are the same text, or two spellings of
      one compression level, or of one subvolume. */
  lemma NormalizeIff(name: string, a: string, b: string)
    requires '=' !in name
    ensures Normalize(name + "=" + a) == Normalize(name + "=" + b) <==>
      if name == "compress" || name == "compress-force" then SameLevel(a, b)
      else if name == "subvol" then CutSlash(a) == CutSlash(b)
      else a == b
  {
    var x, y := name + "=" + a, name + "=" + b;
    TokenNameOf(name, a);
    TokenNameOf(name, b);
    SameLevelIff(a, b);
    SameTail(name, a, b);
    SameTail(name, NormalizeCompressValue(a), NormalizeCompressValue(b));
    SameTail(name, CutSlash(a), CutSlash(b));
  }

  /** The path without one leading slash, if something follows it. */
  function CutSlash(raw: string): string {
    if raw != "" && raw[0] == '/' && raw != "/" then raw[1..] else raw
  }

  lemma SameTail(name: string, a: string, b: string)
    ensures name + "=" + a == name + "=" + b <==> a == b
  {
    var x, y := name + "=" + a, name + "=" + b;
    assert x[|name| + 1..] == a && y[|name| + 1..] == b;
  }
}
