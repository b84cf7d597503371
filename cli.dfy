/**
 * The command line of the simulator: exactly six arguments after the program
 * name, read as flag/value pairs.  Each of the three known flags takes the
 * argument after it as a path; a later occurrence of a flag overrides an
 * earlier one, a flag that never appears leaves its path empty, and an
 * unknown flag or a flag with nothing after it makes the program exit with 1.
 */
module Cli {
  import opened Wrappers

  datatype Paths = Paths(relationships: string, announcements: string, rovAsns: string)

  const NoPaths := Paths("", "", "")

  const RelationshipsFlag := "--relationships"
  const AnnouncementsFlag := "--announcements"
  const RovAsnsFlag := "--rov-asns"

  predicate IsFlag(s: string)
  {
    s == RelationshipsFlag || s == AnnouncementsFlag || s == RovAsnsFlag
  }

  /** The paths after `flag` has been given `value`. */
  function With(p: Paths, flag: string, value: string): (q: Paths)
    requires IsFlag(flag)
    ensures flag == RelationshipsFlag ==> q == p.(relationships := value)
    ensures flag == AnnouncementsFlag ==> q == p.(announcements := value)
    ensures flag == RovAsnsFlag ==> q == p.(rovAsns := value)
  {
    if flag == RelationshipsFlag then p.(relationships := value)
    else if flag == AnnouncementsFlag then p.(announcements := value)
    else p.(rovAsns := value)
  }

  /** The flag loop over the arguments after the program name, from the front. */
  function Flags(args: seq<string>, p: Paths): Option<Paths>
    decreases |args|
  {
    if args == [] then Some(p)
    else if IsFlag(args[0]) && |args| >= 2 then Flags(args[2..], With(p, args[0], args[1]))
    else None
  }

  /** What the program reads from `argv` (program name first), or None when it exits with 1. */
  function Run(argv: seq<string>): Option<Paths>
  {
    if |argv| != 7 then None else Flags(argv[1..], NoPaths)
  }

  /** Arguments that pair up, every pair starting with a known flag. */
  predicate WellFormedFlags(args: seq<string>)
  {
    && |args| % 2 == 0
    && forall k :: 0 <= k < |args| && k % 2 == 0 ==> IsFlag(args[k])
  }

  /** The value of the last `flag` pair in `args`, or `d` when there is none; read from the back. */
  function Last(args: seq<string>, flag: string, d: string): string
    decreases |args|
  {
    if |args| < 2 then d
    else if args[|args| - 2] == flag then args[|args| - 1]
    else Last(args[..|args| - 2], flag, d)
  }

  /** Reading the first pair and then the rest gives the same last value. */
  lemma {:induction false} LastFront(args: seq<string>, flag: string, d: string)
    requires |args| >= 2 && |args| % 2 == 0
    ensures Last(args, flag, d) == Last(args[2..], flag, if args[0] == flag then args[1] else d)
    decreases |args|
  {
    var n := |args|;
    if n > 2 {
      var front := args[..n - 2];
      assert front[2..] == args[2..][..n - 4];
      assert args[2..][n - 4] == args[n - 2] && args[2..][n - 3] == args[n - 1];
      if args[n - 2] != flag {
        LastFront(front, flag, d);
        assert front[0] == args[0] && front[1] == args[1];
      }
    }
  }

  /** The flag loop accepts exactly the arguments that pair up with known flags. */
  lemma {:induction false} FlagsAccepts(args: seq<string>, p: Paths)
    ensures Flags(args, p).Some? <==> WellFormedFlags(args)
    decreases |args|
  {
    if args != [] && IsFlag(args[0]) && |args| >= 2 {
      var rest := args[2..];
      FlagsAccepts(rest, With(p, args[0], args[1]));
      if WellFormedFlags(args) {
        forall k | 0 <= k < |rest| && k % 2 == 0
          ensures IsFlag(rest[k])
        {
          assert rest[k] == args[k + 2];
        }
      }
      if WellFormedFlags(rest) {
        forall k | 0 <= k < |args| && k % 2 == 0
          ensures IsFlag(args[k])
        {
          if k >= 2 {
            assert args[k] == rest[k - 2];
          }
        }
      }
    }
  }

  /** On well-formed arguments every path is the value of its flag's last occurrence. */
  lemma {:induction false} FlagsLastWins(args: seq<string>, p: Paths)
    requires WellFormedFlags(args)
    ensures Flags(args, p) == Some(Paths(
      Last(args, RelationshipsFlag, p.relationships),
      Last(args, AnnouncementsFlag, p.announcements),
      Last(args, RovAsnsFlag, p.rovAsns)))
    decreases |args|
  {
    if args != [] {
      var rest := args[2..];
      var q := With(p, args[0], args[1]);
      forall k | 0 <= k < |rest| && k % 2 == 0
        ensures IsFlag(rest[k])
      {
        assert rest[k] == args[k + 2];
      }
      FlagsLastWins(rest, q);
      LastFront(args, RelationshipsFlag, p.relationships);
      LastFront(args, AnnouncementsFlag, p.announcements);
      LastFront(args, RovAsnsFlag, p.rovAsns);
    }
  }

  /** A flag that never heads a pair keeps its default. */
  lemma {:induction false} LastAbsent(args: seq<string>, flag: string, d: string)
    requires |args| % 2 == 0
    requires forall k :: 0 <= k < |args| && k % 2 == 0 ==> args[k] != flag
    ensures Last(args, flag, d) == d
    decreases |args|
  {
    if |args| >= 2 {
      var front := args[..|args| - 2];
      assert args[|args| - 2] != flag;
      forall k | 0 <= k < |front| && k % 2 == 0
        ensures front[k] != flag
      {
        assert front[k] == args[k];
      }
      LastAbsent(front, flag, d);
    }
  }

  /**
   * The three flags in any order, each once, give exit code 0 and every path
   * is the argument after its flag.
   */
  lemma ThreeFlagsAnyOrder(argv: seq<string>)
    requires |argv| == 7
    requires IsFlag(argv[1]) && IsFlag(argv[3]) && IsFlag(argv[5])
    requires argv[1] != argv[3] && argv[3] != argv[5] && argv[1] != argv[5]
    ensures Run(argv).Some?
    ensures forall j :: j in {1, 3, 5} && argv[j] == RelationshipsFlag ==> Run(argv).value.relationships == argv[j + 1]
    ensures forall j :: j in {1, 3, 5} && argv[j] == AnnouncementsFlag ==> Run(argv).value.announcements == argv[j + 1]
    ensures forall j :: j in {1, 3, 5} && argv[j] == RovAsnsFlag ==> Run(argv).value.rovAsns == argv[j + 1]
  {
    var args := argv[1..];
    assert args[2..][0] == argv[3] && args[2..][1] == argv[4];
    assert args[2..][2..][0] == argv[5] && args[2..][2..][1] == argv[6];
    assert args[2..][2..][2..] == [];
    var p1 := With(NoPaths, argv[1], argv[2]);
    var p2 := With(p1, argv[3], argv[4]);
    var p3 := With(p2, argv[5], argv[6]);
    assert Flags(args[2..][2..], p2) == Some(p3);
    assert Flags(args[2..], p1) == Some(p3);
    assert Flags(args, NoPaths) == Some(p3);
    FlagsDiffer();
  }

  /** The three flags are different strings. */
  lemma FlagsDiffer()
    ensures RelationshipsFlag != AnnouncementsFlag
    ensures RelationshipsFlag != RovAsnsFlag && AnnouncementsFlag != RovAsnsFlag
  {
    assert RelationshipsFlag[2] != AnnouncementsFlag[2];
    assert |RelationshipsFlag| != |RovAsnsFlag|;
  }

  /**
   * A repeated flag uses its last value and a missing flag leaves its path
   * empty, and the call still exits with 0.
   */
  lemma RepeatedAndMissing(prog: string, r1: string, r2: string, v: string)
    ensures Run([prog, RelationshipsFlag, r1, RelationshipsFlag, r2, RovAsnsFlag, v])
         == Some(Paths(r2, "", v))
  {
    var args := [RelationshipsFlag, r1, RelationshipsFlag, r2, RovAsnsFlag, v];
    assert [prog, RelationshipsFlag, r1, RelationshipsFlag, r2, RovAsnsFlag, v][1..] == args;
    assert WellFormedFlags(args);
    FlagsLastWins(args, NoPaths);
    LastAbsent(args, AnnouncementsFlag, "");
  }

  /**
   * The program's argument handling: exit code 1 on a wrong argument count,
   * an unknown flag or a flag in last position; otherwise 0 with the paths
   * the flags named.
   */
  method ParseCommandLine(argv: seq<string>) returns (code: int, paths: Paths)
    ensures |argv| != 7 ==> code == 1
    ensures code == 0 || code == 1
    ensures code == 0 <==> Run(argv).Some?
    ensures code == 0 ==> Run(argv) == Some(paths)
  {
    paths := NoPaths;
    if |argv| != 7 {
      return 1, paths;
    }
    var i := 1;
    while i < |argv|
      invariant 1 <= i <= |argv|
      invariant Flags(argv[i..], paths) == Flags(argv[1..], NoPaths)
    {
      var arg := argv[i];
      assert argv[i..][0] == arg;
      if arg == RelationshipsFlag && i + 1 < |argv| {
        assert argv[i..][2..] == argv[i + 2..];
        i := i + 1;
        paths := paths.(relationships := argv[i]);
      } else if arg == AnnouncementsFlag && i + 1 < |argv| {
        assert argv[i..][2..] == argv[i + 2..];
        i := i + 1;
        paths := paths.(announcements := argv[i]);
      } else if arg == RovAsnsFlag && i + 1 < |argv| {
        assert argv[i..][2..] == argv[i + 2..];
        i := i + 1;
        paths := paths.(rovAsns := argv[i]);
      } else {
        return 1, paths;
      }
      i := i + 1;
    }
    return 0, paths;
  }
}
