/** What the lines of `/etc/fstab` say, read off their characters and words. */
module FstabMeaning {
  import opened Common
  import opened Text
  import opened Fstab

  /** The first character that is no space is a `#`. */
  predicate Commented(line: string) {
    exists i :: 0 <= i < |line| && line[i] == '#' && forall j :: 0 <= j < i ==> IsSpace(line[j])
  }

  lemma {:induction false} CommentedIff(line: string)
    ensures IsComment(line) <==> Commented(line)
  {
    if line != "" && IsSpace(line[0]) {
      CommentedIff(line[1..]);
      if Commented(line[1..]) {
        var i :| 0 <= i < |line[1..]| && line[1..][i] == '#' && forall j :: 0 <= j < i ==> IsSpace(line[1..][j]);
        assert line[i + 1] == '#' && forall j :: 0 <= j < i + 1 ==> IsSpace(line[j]) by {
          assert forall j :: 0 < j < i + 1 ==> line[j] == line[1..][j - 1];
        }
      }
      if Commented(line) {
        var i :| 0 <= i < |line| && line[i] == '#' && forall j :: 0 <= j < i ==> IsSpace(line[j]);
        assert line[1..][i - 1] == '#' && forall j :: 0 <= j < i - 1 ==> IsSpace(line[1..][j]);
      }
    } else if line != "" && line[0] == '#' {
      assert Commented(line);
    }
  }

  /** A line about something else: a comment, or no btrfs entry. */
  predicate Foreign(line: string) {
    Commented(line) || |Words(line)| < 3 || Words(line)[2] != "btrfs"
  }

  /** A foreign line is not dropped and adds nothing. */
  lemma ForeignIsIdle(line: string, mountpoint: string, owner: Option<Owner>, out: map<string, string>)
    requires Foreign(line)
    ensures !Dropped(line, mountpoint, owner) && ParseLine(out, line) == out && !Counts(line)
  {
    CommentedIff(line);
  }

  /** An edit keeps a foreign line as often as it was there. */
  lemma ForeignKept(lines: seq<string>, mountpoint: string, owner: Option<Owner>, line: string)
    requires Foreign(line)
    ensures multiset(Without(lines, mountpoint, owner))[line] == multiset(lines)[line]
  {
    ForeignIsIdle(line, mountpoint, owner, map[]);
    OthersKeptInOrder(lines, mountpoint, owner);
  }

  /** The foreign lines, in order. */
  function ForeignOf(lines: seq<string>): seq<string> {
    if lines == [] then []
    else
      var last := lines[|lines| - 1];
      ForeignOf(lines[..|lines| - 1]) + if Foreign(last) then [last] else []
  }

  /** An edit keeps the foreign lines and their order. */
  lemma {:induction false} ForeignInOrder(lines: seq<string>, mountpoint: string, owner: Option<Owner>)
    ensures ForeignOf(Without(lines, mountpoint, owner)) == ForeignOf(lines)
  {
    if lines != [] {
      var front, last := lines[..|lines| - 1], lines[|lines| - 1];
      ForeignInOrder(front, mountpoint, owner);
      var kept := Without(front, mountpoint, owner);
      if Foreign(last) {
        ForeignIsIdle(last, mountpoint, owner, map[]);
      }
      if Dropped(last, mountpoint, owner) {
        assert kept + [] == kept;
      } else {
        assert (kept + [last])[..|kept|] == kept;
      }
    }
  }

  /** The parsed map is that of the lines without a foreign one. */
  lemma {:induction false} ForeignAddsNothing(before: seq<string>, line: string, after: seq<string>, all: seq<string>)
    requires Foreign(line) && all == before + [line] + after
    ensures Parse(all) == Parse(before + after)
    decreases |after|
  {
    if after == [] {
      assert all == before + [line] && all[..|before|] == before && before + after == before;
      ForeignIsIdle(line, "", None, Parse(before));
    } else {
      var front, last := after[..|after| - 1], after[|after| - 1];
      assert all[..|all| - 1] == before + [line] + front;
      assert (before + after)[..|before + after| - 1] == before + front;
      ForeignAddsNothing(before, line, front, all[..|all| - 1]);
    }
  }

  // ---------------------------------------------------------------- a btrfs line

  /** Option `i` is the first `subvol=`. */
  predicate FirstSubvol(options: seq<string>, i: nat) {
    i < |options| && SUBVOL <= options[i] && forall j :: 0 <= j < i ==> !(SUBVOL <= options[j])
  }

  predicate AllSlashes(s: string) {
    forall c :: c in s ==> c == '/'
  }

  lemma {:induction false} StripSlashesIs(s: string)
    ensures exists a :: AllSlashes(a) && s == a + StripSlashes(s)
    ensures StripSlashes(s) != "" ==> StripSlashes(s)[0] != '/'
  {
    if s != "" && s[0] == '/' {
      StripSlashesIs(s[1..]);
      var a :| AllSlashes(a) && s[1..] == a + StripSlashes(s[1..]);
      assert AllSlashes(['/'] + a) && s == ['/'] + a + StripSlashes(s);
    } else {
      assert AllSlashes("") && s == "" + s;
    }
  }

  lemma {:induction false} SubvolOptionIs(options: seq<string>, i: nat)
    ensures FirstSubvol(options, i) ==> SubvolOption(options) == StripSlashes(options[i][7..])
    ensures (forall o :: o in options ==> !(SUBVOL <= o)) ==> SubvolOption(options) == ""
  {
    if options != [] {
      assert options[0] in options && forall o :: o in options[1..] ==> o in options;
      if i > 0 {
        SubvolOptionIs(options[1..], i - 1);
        assert FirstSubvol(options, i) ==> FirstSubvol(options[1..], i - 1);
      } else {
        SubvolOptionIs(options[1..], 0);
      }
    }
  }

  /** An uncommented btrfs line whose first `subvol=` names something maps its mountpoint to it, without
      its leading slashes. */
  lemma BtrfsLineAdds(before: seq<string>, line: string, i: nat)
    requires !Commented(line) && |Words(line)| >= 4 && Words(line)[2] == "btrfs"
    requires FirstSubvol(Split(Words(line)[3], ','), i)
    ensures var name := StripSlashes(Split(Words(line)[3], ',')[i][7..]);
            Parse(before + [line]) == if name != "" then Parse(before)[Words(line)[1] := name] else Parse(before)
  {
    CommentedIff(line);
    SubvolOptionIs(Split(Words(line)[3], ','), i);
    assert (before + [line])[..|before|] == before;
  }

  /** Without options, or without a `subvol=` among them, it adds nothing. */
  lemma BtrfsLineWithout(before: seq<string>, line: string)
    requires |Words(line)| >= 4 ==> forall o :: o in Split(Words(line)[3], ',') ==> !(SUBVOL <= o)
    ensures Parse(before + [line]) == Parse(before)
  {
    if |Words(line)| >= 4 {
      SubvolOptionIs(Split(Words(line)[3], ','), 0);
    }
    assert (before + [line])[..|before|] == before;
  }

  /** An edit drops an uncommented btrfs line exactly when it is for the mountpoint, or names the
      subvolume, with or without a slash, on the filesystem. */
  lemma BtrfsLineDroppedIff(line: string, mountpoint: string, owner: Option<Owner>)
    requires !Commented(line) && |Words(line)| >= 3 && Words(line)[2] == "btrfs"
    ensures Dropped(line, mountpoint, owner) <==>
      || Words(line)[1] == mountpoint
      || (owner.Some? && |Words(line)| >= 4 && Words(line)[0] == "UUID=" + owner.value.uuid
          && (("subvol=" + owner.value.name) in Split(Words(line)[3], ',')
              || ("subvol=/" + owner.value.name) in Split(Words(line)[3], ',')))
  {
    CommentedIff(line);
    assert SUBVOL + "/" == "subvol=/";
    if owner.Some? {
      assert SUBVOL + "/" + owner.value.name == "subvol=/" + owner.value.name;
    }
  }
}
