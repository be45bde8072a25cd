/** MCP server registrations: expanding a declared block, and capturing a machine as a block. */
module McpServers {
  import opened Common
  import SetMath

  datatype Agent = ClaudeCode | Codex | Antigravity

  /** A registration in the shape the readers of the agents' files produce. */
  datatype Spec = Spec(http: bool, command: Option<string>, args: seq<string>, env: map<string, string>,
                       url: Option<string>, headers: map<string, string>, bearer: Option<string>)

  /** One declared entry; empty `users` means everybody of the block. */
  datatype Entry = Entry(name: string, command: Option<string>, args: seq<string>, env: map<string, string>,
                         url: Option<string>, headers: map<string, string>, bearer: Option<string>,
                         agents: set<Agent>, users: set<string>)

  datatype Block = Block(users: set<string>, entries: seq<Entry>)

  datatype Item = Item(user: string, agent: Agent, name: string)

  type Scan = map<Item, Spec>

  /** `x or None`: an empty string counts as absent. */
  function OrNone(s: Option<string>): Option<string> {
    if s == Some("") then None else s
  }

  /** `_spec_of`. */
  function SpecOf(e: Entry): Spec {
    Spec(OrNone(e.url).Some?, OrNone(e.command), e.args, e.env, OrNone(e.url), e.headers, OrNone(e.bearer))
  }

  // ---------------------------------------------------------------- expanding a block

  predicate Registers(e: Entry, users: set<string>, item: Item) {
    item.user in users && (e.users == {} || item.user in e.users) && item.agent in e.agents && e.name == item.name
  }

  /** What a block asks for under one item: its last entry that registers it. */
  function DesiredAt(users: set<string>, entries: seq<Entry>, item: Item): Option<Spec> {
    if entries == [] then None
    else
      var last := entries[|entries| - 1];
      if Registers(last, users, item) then Some(SpecOf(last))
      else DesiredAt(users, entries[..|entries| - 1], item)
  }

  /** The map says what the entries ask for, for the users done so far. */
  ghost predicate Expands(d: Scan, users: set<string>, entries: seq<Entry>) {
    forall item :: (item in d <==> DesiredAt(users, entries, item).Some?) && (item in d ==> DesiredAt(users, entries, item) == Some(d[item]))
  }

  /** One entry for one user: the innermost loop of `_desired`. */
  method DesireOne(d: Scan, user: string, e: Entry) returns (r: Scan)
    ensures forall item :: item in r <==> item in d || Registers(e, {user}, item)
    ensures forall item :: item in r ==> r[item] == if Registers(e, {user}, item) then SpecOf(e) else d[item]
  {
    r := d;
    if e.users != {} && user !in e.users {
      return;
    }
    var todo := e.agents;
    while todo != {}
      invariant todo <= e.agents
      invariant forall item :: item in r <==> item in d || (Registers(e, {user}, item) && item.agent !in todo)
      invariant forall item :: item in r ==>
        r[item] == if Registers(e, {user}, item) && item.agent !in todo then SpecOf(e) else d[item]
    {
      var agent :| agent in todo;
      r := r[Item(user, agent, e.name) := SpecOf(e)];
      todo := todo - {agent};
    }
  }

  /** The entries for one user. */
  method DesireUser(d: Scan, user: string, entries: seq<Entry>) returns (r: Scan)
    requires forall item :: item in d ==> item.user != user
    ensures forall item :: item in r <==> item in d || DesiredAt({user}, entries, item).Some?
    ensures forall item :: item in r ==>
      if item.user == user then Some(r[item]) == DesiredAt({user}, entries, item) else item in d && r[item] == d[item]
  {
    r := d;
    for i := 0 to |entries|
      invariant forall item :: item in r <==> item in d || DesiredAt({user}, entries[..i], item).Some?
      invariant forall item :: item in r ==>
        if item.user == user then Some(r[item]) == DesiredAt({user}, entries[..i], item) else item in d && r[item] == d[item]
    {
      assert entries[..i + 1][..i] == entries[..i];
      r := DesireOne(r, user, entries[i]);
    }
    assert entries[..|entries|] == entries;
  }

  lemma {:induction false} DesiredOneUser(users: set<string>, entries: seq<Entry>, item: Item)
    ensures DesiredAt(users, entries, item) == if item.user in users then DesiredAt({item.user}, entries, item) else None
  {
    if entries != [] {
      DesiredOneUser(users, entries[..|entries| - 1], item);
    }
  }

  lemma ExpandsWithUser(d: Scan, r: Scan, users: set<string>, user: string, entries: seq<Entry>)
    requires Expands(d, users, entries) && user !in users
    requires forall item :: item in r <==> item in d || DesiredAt({user}, entries, item).Some?
    requires forall item :: item in r ==>
      if item.user == user then Some(r[item]) == DesiredAt({user}, entries, item) else item in d && r[item] == d[item]
    ensures Expands(r, users + {user}, entries)
  {
    forall item
      ensures item in r <==> DesiredAt(users + {user}, entries, item).Some?
      ensures item in r ==> DesiredAt(users + {user}, entries, item) == Some(r[item])
    {
      DesiredOneUser(users + {user}, entries, item);
      DesiredOneUser(users, entries, item);
      DesiredOneUser({user}, entries, item);
    }
  }

  /** `_desired`. */
  method Desired(block: Block) returns (d: Scan)
    ensures Expands(d, block.users, block.entries)
  {
    d := map[];
    var todo := block.users;
    forall item
      ensures DesiredAt({}, block.entries, item).None?
    {
      DesiredOneUser({}, block.entries, item);
    }
    assert block.users - todo == {};
    while todo != {}
      invariant todo <= block.users
      invariant Expands(d, block.users - todo, block.entries)
    {
      var user :| user in todo;
      forall item | item in d
        ensures item.user != user
      {
        DesiredOneUser(block.users - todo, block.entries, item);
      }
      var r := DesireUser(d, user, block.entries);
      ExpandsWithUser(d, r, block.users - todo, user, block.entries);
      assert block.users - (todo - {user}) == (block.users - todo) + {user};
      d := r;
      todo := todo - {user};
    }
    assert block.users - {} == block.users;
  }

  // ---------------------------------------------------------------- capturing a machine

  /** One user's registration of one spec, on whichever agents. */
  datatype Reg = Reg(user: string, name: string, spec: Spec)

  /** What users may share an entry for: the spec and the agents. */
  datatype Group = Group(name: string, spec: Spec, agents: set<Agent>)

  type PerUser = map<Reg, set<Agent>>

  type Found = map<Group, set<string>>

  predicate Carries(scan: Scan, items: set<Item>, r: Reg, agent: Agent) {
    var item := Item(r.user, agent, r.name);
    item in items && item in scan && scan[item] == r.spec
  }

  ghost predicate PerUserOf(p: PerUser, scan: Scan, items: set<Item>) {
    && (forall r :: r in p ==> p[r] != {})
    && (forall r, a :: (r in p && a in p[r]) <==> Carries(scan, items, r, a))
  }

  ghost predicate FoundOf(f: Found, p: PerUser, regs: set<Reg>) {
    && (forall g :: g in f ==> f[g] != {})
    && (forall g, u :: (g in f && u in f[g]) <==>
          var r := Reg(u, g.name, g.spec); r in regs && r in p && p[r] == g.agents)
  }

  /** First pass of `import_state`: the agents are merged per user. */
  method GroupPerUser(scan: Scan) returns (p: PerUser)
    ensures PerUserOf(p, scan, scan.Keys)
  {
    p := map[];
    var todo := scan.Keys;
    while todo != {}
      invariant todo <= scan.Keys
      invariant PerUserOf(p, scan, scan.Keys - todo)
    {
      var item :| item in todo;
      var r := Reg(item.user, item.name, scan[item]);
      var q := p[r := (if r in p then p[r] else {}) + {item.agent}];
      todo := todo - {item};
      forall x, a
        ensures (x in q && a in q[x]) <==> Carries(scan, scan.Keys - todo, x, a)
      {
        assert (x in p && a in p[x]) <==> Carries(scan, scan.Keys - (todo + {item}), x, a);
      }
      p := q;
    }
    assert scan.Keys - {} == scan.Keys;
  }

  /** Second pass: users with the same spec on the same agents share a group. */
  method GroupUsers(p: PerUser) returns (f: Found)
    ensures FoundOf(f, p, p.Keys)
  {
    f := map[];
    var todo := p.Keys;
    while todo != {}
      invariant todo <= p.Keys
      invariant FoundOf(f, p, p.Keys - todo)
    {
      var r :| r in todo;
      var g := Group(r.name, r.spec, p[r]);
      f := f[g := (if g in f then f[g] else {}) + {r.user}];
      todo := todo - {r};
    }
    assert p.Keys - {} == p.Keys;
  }

  /** The entry written for a group. */
  function EntryOf(g: Group, users: set<string>): Entry {
    if g.spec.http then
      Entry(g.name, None, [], map[], g.spec.url, g.spec.headers, OrNone(g.spec.bearer), g.agents, users)
    else
      Entry(g.name, g.spec.command, g.spec.args, g.spec.env, None, map[], None, g.agents, users)
  }

  function Owners(scan: Scan): set<string> {
    set item | item in scan :: item.user
  }

  /** Every group has exactly one entry; an entry names its users unless it is everybody's. */
  ghost predicate EntriesOf(entries: seq<Entry>, gs: seq<Group>, f: Found, groups: set<Group>, everybody: set<string>) {
    && |gs| == |entries|
    && (forall g :: g in gs <==> g in groups)
    && (forall i, j :: 0 <= i < j < |gs| ==> gs[i] != gs[j])
    && (forall i :: 0 <= i < |gs| ==> gs[i] in f && entries[i] == EntryOf(gs[i], if f[gs[i]] != everybody then f[gs[i]] else {}))
  }

  /** Third pass. The order of the entries is left open: no two register the same item. */
  method WriteEntries(f: Found, everybody: set<string>) returns (entries: seq<Entry>, ghost gs: seq<Group>)
    ensures EntriesOf(entries, gs, f, f.Keys, everybody)
  {
    entries, gs := [], [];
    var todo := f.Keys;
    while todo != {}
      invariant todo <= f.Keys
      invariant EntriesOf(entries, gs, f, f.Keys - todo, everybody)
    {
      var g :| g in todo;
      entries := entries + [EntryOf(g, if f[g] != everybody then f[g] else {})];
      gs := gs + [g];
      todo := todo - {g};
    }
  }

  // ---------------------------------------------------------------- capture, then expand

  /** The only group that registers an item is the one its own registration fell into. */
  lemma OnlyOwnGroup(scan: Scan, p: PerUser, f: Found, everybody: set<string>, g: Group, item: Item)
    requires PerUserOf(p, scan, scan.Keys) && FoundOf(f, p, p.Keys) && g in f
    requires Registers(EntryOf(g, if f[g] != everybody then f[g] else {}), everybody, item)
    ensures item in scan && scan[item] == g.spec
  {
    assert item.user in f[g];
    var r := Reg(item.user, g.name, g.spec);
    assert r in p && p[r] == g.agents && item.agent in p[r];
    assert Carries(scan, scan.Keys, r, item.agent);
  }

  lemma OwnGroup(scan: Scan, p: PerUser, f: Found, everybody: set<string>, item: Item) returns (g: Group)
    requires PerUserOf(p, scan, scan.Keys) && FoundOf(f, p, p.Keys) && item in scan && item.user in everybody
    ensures g in f && g.spec == scan[item] && Registers(EntryOf(g, if f[g] != everybody then f[g] else {}), everybody, item)
  {
    var r := Reg(item.user, item.name, scan[item]);
    assert Carries(scan, scan.Keys, r, item.agent);
    g := Group(item.name, scan[item], p[r]);
    assert g in f && item.user in f[g];
  }

  /** An entry that registers the item asks for `want`; `want` is what the block asks for. */
  lemma {:induction false} AllAgree(users: set<string>, entries: seq<Entry>, item: Item, want: Spec)
    requires forall i :: 0 <= i < |entries| && Registers(entries[i], users, item) ==> SpecOf(entries[i]) == want
    ensures DesiredAt(users, entries, item) ==
            if exists i :: 0 <= i < |entries| && Registers(entries[i], users, item) then Some(want) else None
  {
    if entries != [] {
      AllAgree(users, entries[..|entries| - 1], item, want);
    }
  }

  /** The last entry that registers an item decides. */
  lemma {:induction false} LastEntryWins(users: set<string>, entries: seq<Entry>, item: Item, i: nat)
    requires i < |entries| && Registers(entries[i], users, item)
    requires forall j :: i < j < |entries| ==> !Registers(entries[j], users, item)
    ensures DesiredAt(users, entries, item) == Some(SpecOf(entries[i]))
  {
    if i < |entries| - 1 {
      LastEntryWins(users, entries[..|entries| - 1], item, i);
    }
  }

  /** What an entry's spec survives as. */
  function Normal(s: Spec): Spec {
    SpecOf(EntryOf(Group("", s, {}), {}))
  }

  /** http carries only url and auth, stdio only command, arguments and environment. */
  predicate WellFormed(s: Spec) {
    if s.http then s.url.Some? && s.url.value != "" && s.command.None? && s.args == [] && s.env == map[] && s.bearer != Some("")
    else s.command != Some("") && s.url.None? && s.headers == map[] && s.bearer.None?
  }

  lemma NormalIff(s: Spec)
    ensures Normal(s) == s <==> WellFormed(s)
  {
  }

  /** Expanding the captured block asks, under every item, for exactly what the scan found there,
      in normal form: no user gets another's agent, no agent another's server. */
  lemma CaptureExpands(scan: Scan, p: PerUser, f: Found, entries: seq<Entry>, gs: seq<Group>, item: Item)
    requires PerUserOf(p, scan, scan.Keys) && FoundOf(f, p, p.Keys) && EntriesOf(entries, gs, f, f.Keys, Owners(scan))
    ensures DesiredAt(Owners(scan), entries, item) == if item in scan then Some(Normal(scan[item])) else None
  {
    var everybody := Owners(scan);
    forall i | 0 <= i < |entries| && Registers(entries[i], everybody, item)
      ensures item in scan && SpecOf(entries[i]) == Normal(scan[item])
    {
      OnlyOwnGroup(scan, p, f, everybody, gs[i], item);
    }
    if item in scan {
      var g := OwnGroup(scan, p, f, everybody, item);
      assert g in gs;
      var i :| 0 <= i < |gs| && gs[i] == g;
      assert Registers(entries[i], everybody, item);
      AllAgree(everybody, entries, item, Normal(scan[item]));
    } else {
      AllAgree(everybody, entries, item, Spec(false, None, [], map[], None, map[], None));
    }
  }

  /** The block asks for the normal form of everything the scan found, and for nothing else. */
  ghost predicate Captures(block: Block, scan: Scan) {
    forall item :: DesiredAt(block.users, block.entries, item) == if item in scan then Some(Normal(scan[item])) else None
  }

  lemma InverseIff(block: Block, scan: Scan)
    requires Captures(block, scan)
    ensures Expands(scan, block.users, block.entries) <==> forall item :: item in scan ==> WellFormed(scan[item])
  {
    forall item | item in scan
      ensures DesiredAt(block.users, block.entries, item) == Some(scan[item]) <==> WellFormed(scan[item])
    {
      NormalIff(scan[item]);
    }
  }

  /** `import_state`: capture and expand are inverse exactly on well-formed registrations. */
  method ImportState(scan: Scan) returns (block: Block)
    ensures block.users == Owners(scan)
    ensures Captures(block, scan)
    ensures Expands(scan, block.users, block.entries) <==> forall item :: item in scan ==> WellFormed(scan[item])
  {
    var p := GroupPerUser(scan);
    var f := GroupUsers(p);
    var entries, gs := WriteEntries(f, Owners(scan));
    block := Block(Owners(scan), entries);
    forall item
      ensures DesiredAt(block.users, entries, item) == if item in scan then Some(Normal(scan[item])) else None
    {
      CaptureExpands(scan, p, f, entries, gs, item);
    }
    InverseIff(block, scan);
  }

  // ---------------------------------------------------------------- the next plan

  function AgentName(a: Agent): string {
    match a
    case ClaudeCode => "claude-code"
    case Codex => "codex"
    case Antigravity => "antigravity"
  }

  /** `_item`. */
  function ItemText(i: Item): string {
    i.user + ":" + (AgentName(i.agent) + ":" + i.name)
  }

  lemma ColonPrefix(a: string, b: string, x: string, y: string)
    requires ':' !in a && ':' !in b && a + ":" + x == b + ":" + y
    ensures a == b && x == y
  {
    NoShorter(a, b, x, y);
    NoShorter(b, a, y, x);
    var s, t := a + ":" + x, b + ":" + y;
    assert a == s[..|a|] && b == t[..|b|];
    assert x == s[|a| + 1..] && y == t[|b| + 1..];
  }

  lemma NoShorter(a: string, b: string, x: string, y: string)
    requires ':' !in b && a + ":" + x == b + ":" + y
    ensures |a| >= |b|
  {
    var s := a + ":" + x;
    assert s[|a|] == ':';
    assert forall i :: 0 <= i < |b| ==> s[i] == b[i];
  }

  /** A user name never holds the separator, so an item's text says which item it is. */
  lemma ItemTextInjective(i: Item, j: Item)
    requires ':' !in i.user && ':' !in j.user && ItemText(i) == ItemText(j)
    ensures i == j
  {
    var x, y := AgentName(i.agent) + ":" + i.name, AgentName(j.agent) + ":" + j.name;
    assert ItemText(i) == i.user + ":" + x && ItemText(j) == j.user + ":" + y;
    ColonPrefix(i.user, j.user, x, y);
    ColonPrefix(AgentName(i.agent), AgentName(j.agent), i.name, j.name);
    assert AgentName(ClaudeCode)[1] == 'l' && AgentName(Codex)[1] == 'o' && AgentName(Antigravity)[1] == 'n';
  }

  function Texts(m: Scan): set<string> {
    set i | i in m :: ItemText(i)
  }

  /** The items declared and registered, but differently. */
  function Drifted(desired: Scan, actual: Scan): set<Item> {
    set i | i in desired && i in actual && desired[i] != actual[i]
  }

  predicate PlanSilent(desired: Scan, managed: set<string>, actual: Scan) {
    && SetMath.ComputeChanges(Texts(desired), managed, Texts(actual), SetMath.Create, SetMath.Delete) == []
    && Drifted(desired, actual) == {}
  }

  predicate UsersPlain(m: Scan) {
    forall i :: i in m ==> ':' !in i.user
  }

  /** A plan is silent exactly when the machine carries every declared registration as declared and
      the manifest owns nothing undeclared. */
  lemma SilentIff(desired: Scan, managed: set<string>, actual: Scan)
    requires UsersPlain(desired) && UsersPlain(actual)
    ensures PlanSilent(desired, managed, actual) <==>
      && (forall i :: i in desired ==> i in actual && actual[i] == desired[i])
      && managed <= Texts(desired)
  {
    SetMath.PlanSilentIff(Texts(desired), managed, Texts(actual), SetMath.Create, SetMath.Delete);
    if Texts(desired) <= Texts(actual) {
      forall i | i in desired
        ensures i in actual
      {
        assert ItemText(i) in Texts(actual);
        var j :| j in actual && ItemText(j) == ItemText(i);
        ItemTextInjective(i, j);
      }
    }
    if Drifted(desired, actual) == {} {
      forall i | i in desired && i in actual
        ensures desired[i] == actual[i]
      {
        assert i !in Drifted(desired, actual);
      }
    }
  }

  /** A sync, then a plan on the same machine: silent exactly when every registration is well-formed
      and everything the manifest owns is still registered. */
  method SyncThenPlan(scan: Scan, managed: set<string>) returns (silent: bool)
    requires UsersPlain(scan)
    ensures silent <==> (forall i :: i in scan ==> WellFormed(scan[i])) && managed <= Texts(scan)
  {
    var block := ImportState(scan);
    var desired := Desired(block);
    assert desired.Keys == scan.Keys by {
      forall i
        ensures i in desired <==> i in scan
      {
        assert DesiredAt(block.users, block.entries, i) == if i in scan then Some(Normal(scan[i])) else None;
      }
    }
    silent := PlanSilent(desired, managed, scan);
    forall i | i in scan
      ensures desired[i] == Normal(scan[i]) && (Normal(scan[i]) == scan[i] <==> WellFormed(scan[i]))
    {
      NormalIff(scan[i]);
    }
    assert forall i :: i in desired <==> i in scan;
    assert Texts(desired) == Texts(scan);
    SilentIff(desired, managed, scan);
  }
}
