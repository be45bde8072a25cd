/** The three places a subvolume move touches, the file operations on them, and the record of every
    state they pass through. Any operation may fail, and other processes write meanwhile. */
module SubvolFiles {

  type Entries = map<string, string>

  /** A path: nothing there, something that is not a directory, or a directory. */
  datatype Node = Absent | Other | Dir(entries: Entries)

  datatype Path = Src | Staging | Dst

  datatype Snap = Snap(src: Node, staging: Node, dst: Node)

  /** `Error` is what `except Exception` catches; `Interrupt` only `except BaseException` does. */
  datatype Fault = Fine | Error | Interrupt

  /** What a command checks before the data is touched: the no-copy-on-write flag carried over, nobody
      at work below the path, room for a plain copy. */
  datatype Check = NoCopyOnWrite | IdlePath | Room

  function At(s: Snap, p: Path): Node {
    match p
    case Src => s.src
    case Staging => s.staging
    case Dst => s.dst
  }

  function Put(s: Snap, p: Path, n: Node): Snap {
    match p
    case Src => s.(src := n)
    case Staging => s.(staging := n)
    case Dst => s.(dst := n)
  }

  function EntriesOf(n: Node): Entries {
    if n.Dir? then n.entries else map[]
  }

  predicate HasContent(n: Node) {
    EntriesOf(n) != map[]
  }

  /** Every entry of `a` is in `b`, whole. */
  predicate Within(a: Entries, b: Entries) {
    forall n :: n in a ==> n in b && b[n] == a[n]
  }

  /** Nothing `a` holds is missing from `b`. */
  predicate Keeps(a: Node, b: Node) {
    (a.Other? ==> b.Other?) && Within(EntriesOf(a), EntriesOf(b))
  }

  predicate Vacant(n: Node) {
    n.Absent? || n == Dir(map[])
  }

  predicate Renames(s: Snap, a: Path, b: Path, t: Snap) {
    At(s, a).Dir? && Vacant(At(s, b)) && t == Put(Put(s, b, At(s, a)), a, Absent)
  }

  /** Some of a copy of `from` has reached `to`; what the copy overwrites may be half written. */
  predicate PartlyCopied(from: Entries, to: Entries, now: Entries) {
    && (forall n :: n in now ==> n in to || n in from)
    && (forall n :: n in to ==> n in now)
    && (forall n :: n in to && n !in from ==> n in now && now[n] == to[n])
  }

  /** Only `p` may differ. */
  predicate OnlyAt(s: Snap, p: Path, t: Snap) {
    t == Put(s, p, At(t, p))
  }

  function Blame(f: Fault): nat {
    if f.Fine? then 0 else 1
  }

  class Tree {
    var fs: Snap
    ghost var trace: seq<Snap>
    /** How many commands failed so far, and which checks passed. */
    ghost var faults: nat
    ghost var passed: set<Check>

    ghost predicate Valid()
      reads this
    {
      trace != [] && trace[|trace| - 1] == fs
    }

    constructor (s: Snap)
      ensures Valid() && fs == s && trace == [s] && faults == 0 && passed == {}
    {
      fs := s;
      trace := [s];
      faults := 0;
      passed := {};
    }

    /** Counts a command that failed. */
    ghost method Report(f: Fault)
      modifies this`faults
      ensures faults == old(faults) + Blame(f)
    {
      faults := faults + Blame(f);
    }

    /** Other processes add files at the path the data lives on. */
    method Others()
      requires Valid()
      modifies this`fs, this`trace
      ensures Valid() && trace == old(trace) + [fs]
      ensures OnlyAt(old(fs), Src, fs) && (old(fs.src).Dir? ==> fs.src.Dir?)
      ensures Keeps(old(fs.src), fs.src)
    {
      var next: Node;
      match fs.src {
        case Absent => next := *;
        case Other => next := Other;
        case Dir(entries) =>
          assert Within(entries, entries);
          var more: Entries :| Within(entries, more);
          next := Dir(more);
      }
      fs := fs.(src := next);
      trace := trace + [fs];
    }

    /** A check that changes none of the three places. */
    method Probe(check: Check) returns (f: Fault)
      modifies this`faults, this`passed
      ensures faults == old(faults) + Blame(f)
      ensures passed == if f.Fine? then old(passed) + {check} else old(passed)
    {
      f := *;
      Report(f);
      if f.Fine? {
        passed := passed + {check};
      }
    }

    /** `os.rename`: atomic, onto nothing or onto an empty directory. */
    method Rename(a: Path, b: Path) returns (f: Fault)
      requires Valid() && a != b
      modifies this`fs, this`trace, this`faults
      ensures faults == old(faults) + Blame(f)
      ensures Valid() && trace == old(trace) + [fs]
      ensures f.Fine? ==> Renames(old(fs), a, b, fs)
      ensures f.Error? ==> fs == old(fs)
      ensures f.Interrupt? ==> fs == old(fs) || Renames(old(fs), a, b, fs)
    {
      f := *;
      var acts: bool := *;
      if !(At(fs, a).Dir? && Vacant(At(fs, b))) {
        f := if f.Fine? then Error else f;
      } else if f.Fine? || (f.Interrupt? && acts) {
        fs := Put(Put(fs, b, At(fs, a)), a, Absent);
      }
      trace := trace + [fs];
      Report(f);
    }

    /** `os.mkdir` and `btrfs subvolume create`: the path must be free. */
    method Create(p: Path) returns (f: Fault)
      requires Valid()
      modifies this`fs, this`trace, this`faults
      ensures faults == old(faults) + Blame(f)
      ensures Valid() && trace == old(trace) + [fs]
      ensures f.Fine? ==> At(old(fs), p).Absent? && fs == Put(old(fs), p, Dir(map[]))
      ensures !f.Fine? ==> fs == old(fs) || (At(old(fs), p).Absent? && fs == Put(old(fs), p, Dir(map[])))
    {
      f := *;
      var acts: bool := *;
      if !At(fs, p).Absent? {
        f := if f.Fine? then Error else f;
      } else if f.Fine? || acts {
        fs := Put(fs, p, Dir(map[]));
      }
      trace := trace + [fs];
      Report(f);
    }

    /** `os.rmdir`: only an empty directory goes. */
    method Rmdir(p: Path) returns (f: Fault)
      requires Valid()
      modifies this`fs, this`trace, this`faults
      ensures faults == old(faults) + Blame(f)
      ensures Valid() && trace == old(trace) + [fs]
      ensures f.Fine? ==> At(old(fs), p) == Dir(map[]) && fs == Put(old(fs), p, Absent)
      ensures !f.Fine? ==> fs == old(fs) || (At(old(fs), p) == Dir(map[]) && fs == Put(old(fs), p, Absent))
    {
      f := *;
      var acts: bool := *;
      if At(fs, p) != Dir(map[]) {
        f := if f.Fine? then Error else f;
      } else if f.Fine? || acts {
        fs := Put(fs, p, Absent);
      }
      trace := trace + [fs];
      Report(f);
    }

    /** `btrfs subvolume delete`: whole or not at all. */
    method DeleteSubvolume(p: Path) returns (f: Fault)
      requires Valid()
      modifies this`fs, this`trace, this`faults
      ensures faults == old(faults) + Blame(f)
      ensures Valid() && trace == old(trace) + [fs]
      ensures fs == old(fs) || fs == Put(old(fs), p, Absent)
      ensures f.Fine? ==> At(fs, p).Absent?
    {
      f := *;
      var acts: bool := *;
      if f.Fine? || acts {
        fs := Put(fs, p, Absent);
      }
      trace := trace + [fs];
      Report(f);
    }

    /** `_empty_dir`: the entries go one by one. */
    method EmptyDir(p: Path) returns (f: Fault)
      requires Valid()
      modifies this`fs, this`trace, this`faults
      ensures faults == old(faults) + Blame(f)
      ensures Valid() && old(trace) <= trace
      ensures forall i :: |old(trace)| <= i < |trace| ==> OnlyAt(old(fs), p, trace[i]) && Keeps(At(trace[i], p), At(old(fs), p))
      ensures OnlyAt(old(fs), p, fs) && (At(old(fs), p).Dir? ==> At(fs, p).Dir?)
      ensures !At(old(fs), p).Dir? ==> fs == old(fs)
      ensures f.Fine? ==> At(fs, p) == Dir(map[])
    {
      if !At(fs, p).Dir? {
        Report(Error);
        return Error;
      }
      var left := At(fs, p).entries;
      while left != map[]
        invariant Valid() && old(trace) <= trace && At(fs, p) == Dir(left)
        invariant OnlyAt(old(fs), p, fs) && Keeps(At(fs, p), At(old(fs), p))
        invariant forall i :: |old(trace)| <= i < |trace| ==> OnlyAt(old(fs), p, trace[i]) && Keeps(At(trace[i], p), At(old(fs), p))
        invariant faults == old(faults)
        decreases |left|
      {
        f := *;
        if !f.Fine? {
          Report(f);
          return;
        }
        var n :| n in left;
        left := left - {n};
        fs := Put(fs, p, Dir(left));
        trace := trace + [fs];
      }
      return Fine;
    }

    /** `shutil.rmtree`. */
    method DeleteTree(p: Path) returns (f: Fault)
      requires Valid()
      modifies this`fs, this`trace, this`faults
      ensures faults == old(faults) + Blame(f)
      ensures Valid() && old(trace) <= trace
      ensures forall i :: |old(trace)| <= i < |trace| ==> OnlyAt(old(fs), p, trace[i]) && Keeps(At(trace[i], p), At(old(fs), p))
      ensures OnlyAt(old(fs), p, fs)
      ensures f.Fine? ==> At(fs, p).Absent?
    {
      f := EmptyDir(p);
      if f.Fine? {
        f := Rmdir(p);
      }
    }

    /** `cp -a from/. to/`: everything, or any part of it. */
    method Cp(from: Path, to: Path) returns (f: Fault)
      requires Valid() && from != to
      modifies this`fs, this`trace, this`faults
      ensures faults == old(faults) + Blame(f)
      ensures Valid() && trace == old(trace) + [fs] && OnlyAt(old(fs), to, fs)
      ensures !At(old(fs), to).Dir? ==> fs == old(fs)
      ensures At(old(fs), to).Dir? ==>
        At(fs, to).Dir? && PartlyCopied(EntriesOf(At(old(fs), from)), EntriesOf(At(old(fs), to)), EntriesOf(At(fs, to)))
      ensures f.Fine? ==>
        && At(old(fs), from).Dir? && At(old(fs), to).Dir?
        && At(fs, to) == Dir(At(old(fs), to).entries + At(old(fs), from).entries)
    {
      f := *;
      if !At(fs, from).Dir? || !At(fs, to).Dir? {
        f := if f.Fine? then Error else f;
      } else if f.Fine? {
        fs := Put(fs, to, Dir(At(fs, to).entries + At(fs, from).entries));
      } else {
        assert PartlyCopied(At(fs, from).entries, At(fs, to).entries, At(fs, to).entries);
        var some: Entries :| PartlyCopied(At(fs, from).entries, At(fs, to).entries, some);
        fs := Put(fs, to, Dir(some));
      }
      trace := trace + [fs];
      Report(f);
    }
  }
}
