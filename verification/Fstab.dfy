/** `/etc/fstab` for btrfs subvolumes: the parser, the editor, and their agreement. A text is its
    lines; the only line break is '\n'. */
module Fstab {
  import opened Common
  import opened Text

  /** A btrfs line with at least three columns; `options` is its fourth. */
  datatype Entry = Entry(device: string, mountpoint: string, options: Option<seq<string>>)

  /** The subvolume whose lines must go wherever they mount it. */
  datatype Owner = Owner(name: string, uuid: string)

  const SUBVOL := "subvol="

  predicate IsComment(line: string) {
    StripLeft(line) != "" && StripLeft(line)[0] == '#'
  }

  function ReadEntry(line: string): Option<Entry> {
    var cols := Words(line);
    if |cols| < 3 || IsComment(line) || cols[2] != "btrfs" then None
    else Some(Entry(cols[0], cols[1], if |cols| >= 4 then Some(Split(cols[3], ',')) else None))
  }

  function StripSlashes(s: string): string {
    if s != "" && s[0] == '/' then StripSlashes(s[1..]) else s
  }

  /** `_subvol_option`: the value of the first `subvol=`, without leading slashes. */
  function SubvolOption(options: seq<string>): string {
    if options == [] then ""
    else if SUBVOL <= options[0] then StripSlashes(options[0][|SUBVOL|..])
    else SubvolOption(options[1..])
  }

  /** `_names_subvol`. */
  predicate NamesSubvol(options: seq<string>, name: string) {
    SUBVOL + name in options || SUBVOL + "/" + name in options
  }

  // ---------------------------------------------------------------- the parser

  /** The parser takes a subvolume from the line. */
  predicate Counts(line: string) {
    var e := ReadEntry(line);
    e.Some? && e.value.options.Some? && SubvolOption(e.value.options.value) != ""
  }

  /** What one line adds to the mountpoint-to-subvolume map. */
  function ParseLine(out: map<string, string>, line: string): map<string, string> {
    if Counts(line) then
      var e := ReadEntry(line).value;
      out[e.mountpoint := SubvolOption(e.options.value)]
    else out
  }

  function Parse(lines: seq<string>): map<string, string> {
    if lines == [] then map[]
    else ParseLine(Parse(lines[..|lines| - 1]), lines[|lines| - 1])
  }

  /** `parse_fstab_subvols`. */
  method ParseFstabSubvols(text: string) returns (out: map<string, string>)
    ensures out == Parse(Lines(text))
  {
    var lines := Lines(text);
    out := map[];
    for i := 0 to |lines|
      invariant out == Parse(lines[..i])
    {
      assert lines[..i + 1][..i] == lines[..i];
      var cols := Words(lines[i]);
      if IsComment(lines[i]) || |cols| < 4 || cols[2] != "btrfs" {
        continue;
      }
      var subvol := SubvolOption(Split(cols[3], ','));
      if subvol != "" {
        out := out[cols[1] := subvol];
      }
    }
    assert lines[..|lines|] == lines;
  }

  /** The keys of the parsed map, in the order a dictionary lists them: by first insertion. */
  function Mountpoints(lines: seq<string>): seq<string> {
    if lines == [] then []
    else
      var before, last := Mountpoints(lines[..|lines| - 1]), lines[|lines| - 1];
      if Counts(last) && ReadEntry(last).value.mountpoint !in before then before + [ReadEntry(last).value.mountpoint]
      else before
  }

  lemma {:induction false} MountpointsAreKeys(lines: seq<string>)
    ensures forall m :: m in Mountpoints(lines) <==> m in Parse(lines)
  {
    if lines != [] {
      MountpointsAreKeys(lines[..|lines| - 1]);
    }
  }

  function LastNamed(mountpoints: seq<string>, named: map<string, string>, name: string): Option<string> {
    if mountpoints == [] then None
    else
      var last := mountpoints[|mountpoints| - 1];
      if last in named && named[last] == name then Some(last)
      else LastNamed(mountpoints[..|mountpoints| - 1], named, name)
  }

  /** The last mountpoint the parsed map gives to the subvolume. */
  function NamedPlace(lines: seq<string>, name: string): Option<string> {
    LastNamed(Mountpoints(lines), Parse(lines), name)
  }

  lemma {:induction false} LastNamedIs(mountpoints: seq<string>, named: map<string, string>, name: string)
    ensures var p := LastNamed(mountpoints, named, name);
            && (p.Some? ==> p.value in mountpoints && p.value in named && named[p.value] == name)
            && (p.None? ==> forall m :: m in mountpoints && m in named ==> named[m] != name)
  {
    if mountpoints != [] {
      var front, last := mountpoints[..|mountpoints| - 1], mountpoints[|mountpoints| - 1];
      LastNamedIs(front, named, name);
      assert mountpoints == front + [last];
    }
  }

  lemma NamedPlaceIs(lines: seq<string>, name: string)
    ensures var p := NamedPlace(lines, name);
            && (p.Some? ==> p.value in Parse(lines) && Parse(lines)[p.value] == name)
            && (p.None? ==> forall m :: m in Parse(lines) ==> Parse(lines)[m] != name)
  {
    MountpointsAreKeys(lines);
    LastNamedIs(Mountpoints(lines), Parse(lines), name);
  }

  // ---------------------------------------------------------------- the editor

  predicate Dropped(line: string, mountpoint: string, owner: Option<Owner>) {
    var e := ReadEntry(line);
    && e.Some?
    && (e.value.mountpoint == mountpoint
        || (owner.Some? && e.value.options.Some? && e.value.device == "UUID=" + owner.value.uuid
            && NamesSubvol(e.value.options.value, owner.value.name)))
  }

  function Without(lines: seq<string>, mountpoint: string, owner: Option<Owner>): seq<string> {
    if lines == [] then []
    else
      var last := lines[|lines| - 1];
      Without(lines[..|lines| - 1], mountpoint, owner) + if Dropped(last, mountpoint, owner) then [] else [last]
  }

  /** `without_btrfs_lines`. */
  method WithoutBtrfsLines(text: string, mountpoint: string, owner: Option<Owner>) returns (kept: seq<string>)
    ensures kept == Without(Lines(text), mountpoint, owner)
  {
    var lines := Lines(text);
    kept := [];
    for i := 0 to |lines|
      invariant kept == Without(lines[..i], mountpoint, owner)
    {
      assert lines[..i + 1][..i] == lines[..i];
      var cols := Words(lines[i]);
      if |cols| >= 3 && !IsComment(lines[i]) && cols[2] == "btrfs" {
        if cols[1] == mountpoint {
          continue;
        }
        if owner.Some? && |cols| >= 4 && cols[0] == "UUID=" + owner.value.uuid
           && NamesSubvol(Split(cols[3], ','), owner.value.name) {
          continue;
        }
      }
      kept := kept + [lines[i]];
    }
    assert lines[..|lines|] == lines;
  }

  /** `_fstab_set` and `_fstab_drop` on the lines of the file. */
  function WithLine(lines: seq<string>, mountpoint: string, line: string, owner: Owner): seq<string> {
    Without(lines, mountpoint, Some(owner)) + [line]
  }

  /** What the lines read as once they are written. */
  function Rewritten(lines: seq<string>): seq<string> {
    Lines(Unlines(lines))
  }

  class FstabFile {
    var text: string
    var changed: bool

    constructor (text: string)
      ensures this.text == text && !changed
    {
      this.text := text;
      changed := false;
    }

    /** `_fstab_set`. */
    method Set(mountpoint: string, line: string, owner: Owner)
      modifies this
      ensures Lines(text) == Rewritten(WithLine(Lines(old(text)), mountpoint, line, owner))
      ensures '\n' !in line ==> Lines(text) == WithLine(Lines(old(text)), mountpoint, line, owner)
      ensures changed
    {
      var kept := WithoutBtrfsLines(text, mountpoint, Some(owner));
      WholeLines(text, mountpoint, Some(owner));
      if '\n' !in line {
        LinesOfUnlines(kept + [line]);
      }
      text := Unlines(kept + [line]);
      changed := true;
    }

    /** `_fstab_drop`: writes only when a line goes. */
    method Drop(mountpoint: string)
      modifies this
      ensures Lines(text) == Without(Lines(old(text)), mountpoint, None)
      ensures text != old(text) ==> changed
      ensures Lines(text) == Lines(old(text)) ==> text == old(text)
    {
      var kept := WithoutBtrfsLines(text, mountpoint, None);
      WholeLines(text, mountpoint, None);
      if |kept| == |Lines(text)| {
        SameLengthSameLines(Lines(text), mountpoint, None);
        return;
      }
      LinesOfUnlines(kept);
      text := Unlines(kept);
      changed := true;
    }
  }

  // ---------------------------------------------------------------- which lines stay

  lemma {:induction false} WithoutSublist(lines: seq<string>, mountpoint: string, owner: Option<Owner>)
    ensures forall l :: l in Without(lines, mountpoint, owner) <==> l in lines && !Dropped(l, mountpoint, owner)
    ensures |Without(lines, mountpoint, owner)| <= |lines|
  {
    if lines != [] {
      var front, last := lines[..|lines| - 1], lines[|lines| - 1];
      WithoutSublist(front, mountpoint, owner);
      assert lines == front + [last];
    }
  }

  lemma WholeLines(text: string, mountpoint: string, owner: Option<Owner>)
    ensures var kept := Without(Lines(text), mountpoint, owner);
            |kept| <= |Lines(text)| && forall i :: 0 <= i < |kept| ==> '\n' !in kept[i]
  {
    var lines := Lines(text);
    var kept := Without(lines, mountpoint, owner);
    WithoutSublist(lines, mountpoint, owner);
    forall i | 0 <= i < |kept|
      ensures '\n' !in kept[i]
    {
      assert kept[i] in lines;
      var j :| 0 <= j < |lines| && lines[j] == kept[i];
    }
  }

  lemma ShorterOrEqual(lines: seq<string>, mountpoint: string, owner: Option<Owner>)
    ensures |Without(lines, mountpoint, owner)| <= |lines|
  {
    WithoutSublist(lines, mountpoint, owner);
  }

  lemma {:induction false} SameLengthSameLines(lines: seq<string>, mountpoint: string, owner: Option<Owner>)
    requires |Without(lines, mountpoint, owner)| == |lines|
    ensures Without(lines, mountpoint, owner) == lines
  {
    if lines != [] {
      var front, last := lines[..|lines| - 1], lines[|lines| - 1];
      ShorterOrEqual(front, mountpoint, owner);
      SameLengthSameLines(front, mountpoint, owner);
      assert lines == front + [last];
    }
  }

  /** The lines that stay are the ones not dropped, each as often as before and in their order. */
  lemma {:induction false} OthersKeptInOrder(lines: seq<string>, mountpoint: string, owner: Option<Owner>)
    ensures Subsequence(Without(lines, mountpoint, owner), lines)
    ensures forall l :: multiset(Without(lines, mountpoint, owner))[l]
                     == if Dropped(l, mountpoint, owner) then 0 else multiset(lines)[l]
  {
    if lines != [] {
      var front, last := lines[..|lines| - 1], lines[|lines| - 1];
      OthersKeptInOrder(front, mountpoint, owner);
      assert lines == front + [last];
      var kept := Without(front, mountpoint, owner);
      if Dropped(last, mountpoint, owner) {
        assert kept + [] == kept;
        StrikeLast(kept, front, last);
      } else {
        assert (kept + [last])[..|kept|] == kept;
      }
    }
  }

  lemma {:induction false} WithoutAgain(lines: seq<string>, mountpoint: string, owner: Option<Owner>)
    ensures var kept := Without(lines, mountpoint, owner); Without(kept, mountpoint, owner) == kept
  {
    if lines != [] {
      var front, last := lines[..|lines| - 1], lines[|lines| - 1];
      WithoutAgain(front, mountpoint, owner);
      var kept := Without(front, mountpoint, owner);
      if Dropped(last, mountpoint, owner) {
        assert kept + [] == kept;
      } else {
        assert (kept + [last])[..|kept|] == kept;
      }
    }
  }

  /** The line mounts a subvolume of `uuid` at `mountpoint`. */
  predicate IsLineFor(line: string, mountpoint: string, uuid: string) {
    var e := ReadEntry(line);
    e.Some? && e.value.mountpoint == mountpoint && e.value.device == "UUID=" + uuid && e.value.options.Some?
  }

  /** Setting a line twice is setting it once. */
  lemma SetTwice(lines: seq<string>, mountpoint: string, line: string, owner: Owner)
    requires IsLineFor(line, mountpoint, owner.uuid)
    ensures var once := WithLine(lines, mountpoint, line, owner); WithLine(once, mountpoint, line, owner) == once
  {
    WithoutAgain(lines, mountpoint, Some(owner));
    var kept := Without(lines, mountpoint, Some(owner));
    assert (kept + [line])[..|kept|] == kept;
    assert kept + [] == kept;
  }

  /** After setting, the set line is the only btrfs line for that mountpoint, and no other line
      mounts that subvolume of that filesystem. */
  lemma OnlyLine(lines: seq<string>, mountpoint: string, line: string, owner: Owner, i: nat)
    requires i + 1 < |WithLine(lines, mountpoint, line, owner)|
    ensures var l := ReadEntry(WithLine(lines, mountpoint, line, owner)[i]);
      && (l.Some? ==> l.value.mountpoint != mountpoint)
      && (l.Some? && l.value.options.Some? && l.value.device == "UUID=" + owner.uuid ==>
           !NamesSubvol(l.value.options.value, owner.name))
  {
    var all := WithLine(lines, mountpoint, line, owner);
    WithoutSublist(lines, mountpoint, Some(owner));
    assert all[i] in Without(lines, mountpoint, Some(owner));
  }

  // ---------------------------------------------------------------- the parser on edited lines

  lemma {:induction false} NotParsed(lines: seq<string>, mountpoint: string)
    requires forall l :: l in lines ==> !Dropped(l, mountpoint, None)
    ensures mountpoint !in Parse(lines)
  {
    if lines != [] {
      var front, last := lines[..|lines| - 1], lines[|lines| - 1];
      assert forall l :: l in front ==> l in lines;
      NotParsed(front, mountpoint);
      assert last in lines;
    }
  }

  /** The parser reads the set line back as the subvolume exactly when the first `subvol=` option of
      the line names it; no line before it can interfere. */
  lemma ParseAfterSet(lines: seq<string>, mountpoint: string, line: string, owner: Owner)
    requires IsLineFor(line, mountpoint, owner.uuid) && owner.name != ""
    ensures var out := Parse(WithLine(lines, mountpoint, line, owner));
            (mountpoint in out && out[mountpoint] == owner.name)
            <==> SubvolOption(ReadEntry(line).value.options.value) == owner.name
  {
    var kept := Without(lines, mountpoint, Some(owner));
    WithoutSublist(lines, mountpoint, Some(owner));
    NotParsed(kept, mountpoint);
    assert (kept + [line])[..|kept|] == kept;
  }

  /** The line does not name two top-level subvolumes; either spelling, with or without a leading
      slash, will do. */
  ghost predicate NamesOne(line: string) {
    var e := ReadEntry(line);
    e.Some? && e.value.options.Some? ==>
      forall name :: '/' !in name && NamesSubvol(e.value.options.value, name) ==> SubvolOption(e.value.options.value) == name
  }

  /** Editing for one subvolume leaves the parsed subvolume of every other mountpoint alone. */
  lemma {:induction false} OtherMountpointsKept(lines: seq<string>, mountpoint: string, owner: Option<Owner>, other: string)
    requires other != mountpoint
    requires forall l :: l in lines ==> NamesOne(l)
    requires owner.Some? ==> '/' !in owner.value.name
    requires other in Parse(lines) && (owner.Some? ==> Parse(lines)[other] != owner.value.name)
    ensures var out := Parse(Without(lines, mountpoint, owner)); other in out && out[other] == Parse(lines)[other]
  {
    var front, last := lines[..|lines| - 1], lines[|lines| - 1];
    assert last in lines && forall l :: l in front ==> l in lines;
    var e := ReadEntry(last);
    var kept := Without(front, mountpoint, owner);
    assert (kept + [last])[..|kept|] == kept && kept + [] == kept;
    if e.Some? && e.value.mountpoint == other && e.value.options.Some? && SubvolOption(e.value.options.value) != "" {
      assert !Dropped(last, mountpoint, owner);
    } else {
      OtherMountpointsKept(front, mountpoint, owner, other);
    }
  }

  /** Editing never makes the parser see a subvolume at a mountpoint where no line put it, nor the
      dropped mountpoint. */
  lemma NothingInvented(lines: seq<string>, mountpoint: string, owner: Option<Owner>)
    ensures mountpoint !in Parse(Without(lines, mountpoint, owner))
    ensures Parse(Without(lines, mountpoint, owner)).Keys <= Parse(lines).Keys
  {
    WithoutSublist(lines, mountpoint, owner);
    NotParsed(Without(lines, mountpoint, owner), mountpoint);
    KeysShrink(lines, mountpoint, owner);
  }

  lemma {:induction false} KeysShrink(lines: seq<string>, mountpoint: string, owner: Option<Owner>)
    ensures Parse(Without(lines, mountpoint, owner)).Keys <= Parse(lines).Keys
  {
    if lines != [] {
      var front, last := lines[..|lines| - 1], lines[|lines| - 1];
      KeysShrink(front, mountpoint, owner);
      var kept := Without(front, mountpoint, owner);
      assert (kept + [last])[..|kept|] == kept && kept + [] == kept;
    }
  }

  // ---------------------------------------------------------------- the line the action writes

  /** `_fstab_line`: `options` are the merged mount options of the partition and the subvolume. */
  function LineOf(owner: Owner, mountpoint: string, options: seq<string>): string {
    Join(["UUID=" + owner.uuid, mountpoint, "btrfs", Join(options + [SUBVOL + owner.name], ","), "0", "0"], " ")
  }

  /** A nonempty string without whitespace or commas. */
  predicate Vetted(s: string) {
    IsWord(s) && ',' !in s
  }

  lemma {:induction false} JoinedIsWord(options: seq<string>)
    requires options != [] && forall o :: o in options ==> Vetted(o)
    ensures IsWord(Join(options, ","))
  {
    assert options[0] in options;
    if |options| > 1 {
      assert forall o :: o in options[1..] ==> o in options;
      JoinedIsWord(options[1..]);
      WordJoin(options[0], Join(options[1..], ","));
    }
  }

  lemma WordJoin(a: string, b: string)
    requires IsWord(a) && IsWord(b)
    ensures IsWord(a + "," + b)
  {
    var s := a + "," + b;
    forall i | 0 <= i < |s|
      ensures !IsSpace(s[i])
    {
      if i > |a| {
        assert s[i] == b[i - |a| - 1];
      }
    }
  }

  /** The written line is a line for its mountpoint, with the options it was written with. */
  lemma LineReadsBack(owner: Owner, mountpoint: string, options: seq<string>)
    requires Vetted(owner.name) && IsWord(owner.uuid) && IsWord(mountpoint)
    requires forall o :: o in options ==> Vetted(o)
    ensures ReadEntry(LineOf(owner, mountpoint, options))
         == Some(Entry("UUID=" + owner.uuid, mountpoint, Some(options + [SUBVOL + owner.name])))
    ensures IsLineFor(LineOf(owner, mountpoint, options), mountpoint, owner.uuid)
  {
    var all := options + [SUBVOL + owner.name];
    JoinedIsWord(all);
    var cols := ["UUID=" + owner.uuid, mountpoint, "btrfs", Join(all, ","), "0", "0"];
    WordsOfJoin(cols);
    forall i | 0 <= i < |all|
      ensures ',' !in all[i]
    {
      if i < |options| {
        assert options[i] in options;
      }
    }
    SplitOfJoin(all, ',');
    assert LineOf(owner, mountpoint, options)[0] == 'U';
  }

  predicate OwnSubvol(options: seq<string>) {
    exists o :: o in options && SUBVOL <= o
  }

  lemma {:induction false} SubvolOptionAppend(options: seq<string>, last: string)
    ensures SubvolOption(options + [last]) == if OwnSubvol(options) then SubvolOption(options) else SubvolOption([last])
  {
    if options == [] {
      assert options + [last] == [last];
    } else {
      assert (options + [last])[1..] == options[1..] + [last];
      assert options[0] in options;
      assert forall o :: o in options <==> o == options[0] || o in options[1..];
      if !(SUBVOL <= options[0]) {
        SubvolOptionAppend(options[1..], last);
        assert OwnSubvol(options) <==> OwnSubvol(options[1..]);
      }
    }
  }

  /** Writing the line and parsing the file gives the declared subvolume, unless the configured
      mount options carry a `subvol=` of their own that names another one first. */
  lemma {:induction false} SetThenParse(lines: seq<string>, owner: Owner, mountpoint: string, options: seq<string>)
    requires Vetted(owner.name) && owner.name[0] != '/' && IsWord(owner.uuid) && IsWord(mountpoint)
    requires forall o :: o in options ==> Vetted(o)
    ensures var out := Parse(WithLine(lines, mountpoint, LineOf(owner, mountpoint, options), owner));
            (mountpoint in out && out[mountpoint] == owner.name)
            <==> (OwnSubvol(options) ==> SubvolOption(options) == owner.name)
  {
    LineReadsBack(owner, mountpoint, options);
    ParseAfterSet(lines, mountpoint, LineOf(owner, mountpoint, options), owner);
    SubvolOptionAppend(options, SUBVOL + owner.name);
    assert SubvolOption([SUBVOL + owner.name]) == owner.name;
  }
}
